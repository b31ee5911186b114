/**
 * One side of the book: an ordered map from price to a FIFO queue of
 * resting order ids, kept as a sequence of levels sorted in ladder order
 * (bids highest price first, asks lowest price first). The functions here
 * are the map and queue operations the engine performs on a ladder.
 */
module Ladder {
  import opened Types

  datatype Level = Level(price: int, queue: seq<OrderId>)

  /** `p` comes strictly before `q` in the ladder of `side`. */
  predicate Before(side: Side, p: int, q: int)
  {
    match side
    case Buy => p > q
    case Sell => p < q
  }

  predicate Sorted(side: Side, l: seq<Level>)
  {
    forall i, j :: 0 <= i < j < |l| ==> Before(side, l[i].price, l[j].price)
  }

  /** Levels in strict ladder order, and no level with an empty queue. */
  predicate LadderOk(side: Side, l: seq<Level>)
  {
    Sorted(side, l) && forall i :: 0 <= i < |l| ==> l[i].queue != []
  }

  /** All resting ids of the ladder in priority order: by level, then by arrival. */
  ghost function Flatten(l: seq<Level>): seq<OrderId>
  {
    if l == [] then [] else l[0].queue + Flatten(l[1..])
  }

  ghost function LevelSlots(lv: Level): set<(OrderId, int)>
  {
    set x | x in lv.queue :: (x, lv.price)
  }

  /** Every (id, level price) pair resting in the ladder. */
  ghost function Slots(l: seq<Level>): set<(OrderId, int)>
  {
    if l == [] then {} else LevelSlots(l[0]) + Slots(l[1..])
  }

  ghost function Prices(l: seq<Level>): set<int>
  {
    set i | 0 <= i < |l| :: l[i].price
  }

  /** The queue at `price`, or the empty queue if there is no such level (the map view). */
  ghost function QueueAt(l: seq<Level>, price: int): seq<OrderId>
  {
    if l == [] then [] else if l[0].price == price then l[0].queue else QueueAt(l[1..], price)
  }

  /** Number of levels strictly before `price`: where a level at `price` is or would go. */
  function Position(side: Side, l: seq<Level>, price: int): (k: nat)
    ensures k <= |l|
    ensures forall i :: 0 <= i < k ==> Before(side, l[i].price, price)
    ensures Sorted(side, l) ==> forall i :: k < i < |l| ==> Before(side, price, l[i].price)
    ensures k < |l| ==> l[k].price == price || Before(side, price, l[k].price)
  {
    if l == [] || !Before(side, l[0].price, price) then 0
    else 1 + Position(side, l[1..], price)
  }

  /** Index of the first occurrence of `id` in `q`, or `|q|` if it does not occur. */
  function IndexOf(q: seq<OrderId>, id: OrderId): (k: nat)
    ensures k <= |q|
    ensures k < |q| ==> q[k] == id
    ensures forall j :: 0 <= j < k ==> q[j] != id
  {
    if q == [] then 0 else if q[0] == id then 0 else 1 + IndexOf(q[1..], id)
  }

  /** The queue with the first occurrence of `id` unlinked (`LinkedList.remove`). */
  function RemoveFirst(q: seq<OrderId>, id: OrderId): (r: seq<OrderId>)
    ensures id in q ==> multiset(r) == multiset(q) - multiset{id}
    ensures id !in q ==> r == q
    ensures id in q ==> |r| == |q| - 1
    ensures id in q ==> forall i :: 0 <= i < |r| ==> r[i] == q[if i < IndexOf(q, id) then i else i + 1]
  {
    var k := IndexOf(q, id);
    if k < |q| then
      DeleteAt(q, k, q[..k] + q[k+1..]);
      q[..k] + q[k+1..]
    else q
  }

  /** Facts about `rest`, the queue `q` with the slot at `k` cut out. */
  lemma DeleteAt(q: seq<OrderId>, k: nat, rest: seq<OrderId>)
    requires k < |q| && rest == q[..k] + q[k+1..]
    ensures multiset(rest) == multiset(q) - multiset{q[k]}
    ensures |rest| == |q| - 1
    ensures forall i :: 0 <= i < |rest| ==> rest[i] == q[if i < k then i else i + 1]
  {
    assert q == q[..k] + [q[k]] + q[k+1..];
  }

  /**
   * `putIfAbsent(price, new LinkedList())` followed by `get(price).addLast(id)`:
   * append `id` to the queue at `price`, creating the level if it is absent.
   */
  function Join(side: Side, l: seq<Level>, price: int, id: OrderId): seq<Level>
  {
    var k := Position(side, l, price);
    if k < |l| && l[k].price == price then l[..k] + [Level(price, l[k].queue + [id])] + l[k+1..]
    else l[..k] + [Level(price, [id])] + l[k..]
  }

  /**
   * `get(price).remove(id)` followed by removing the level when its queue is
   * now empty; a missing level leaves the ladder as it is.
   */
  function Remove(side: Side, l: seq<Level>, price: int, id: OrderId): seq<Level>
  {
    var k := Position(side, l, price);
    if k < |l| && l[k].price == price then
      var q := RemoveFirst(l[k].queue, id);
      if q == [] then l[..k] + l[k+1..] else l[..k] + [Level(price, q)] + l[k+1..]
    else l
  }

  /** `removeFirst` on the best level's queue, then removal of that level if it is now empty. */
  function PopFront(l: seq<Level>): seq<Level>
    requires l != [] && l[0].queue != []
  {
    if |l[0].queue| == 1 then l[1..] else [Level(l[0].price, l[0].queue[1..])] + l[1..]
  }

  // ---------------------------------------------------------------------
  // Structural lemmas

  lemma {:induction false} FlattenAppend(a: seq<Level>, b: seq<Level>)
    ensures Flatten(a + b) == Flatten(a) + Flatten(b)
  {
    if a == [] {
      assert a + b == b;
    } else {
      assert (a + b)[1..] == a[1..] + b;
      FlattenAppend(a[1..], b);
    }
  }

  lemma {:induction false} SlotsAppend(a: seq<Level>, b: seq<Level>)
    ensures Slots(a + b) == Slots(a) + Slots(b)
  {
    if a == [] {
      assert a + b == b;
    } else {
      assert (a + b)[1..] == a[1..] + b;
      SlotsAppend(a[1..], b);
    }
  }

  lemma {:induction false} QueueAtAppend(a: seq<Level>, b: seq<Level>, price: int)
    ensures QueueAt(a + b, price) == if price in Prices(a) then QueueAt(a, price) else QueueAt(b, price)
  {
    if a == [] {
      assert a + b == b;
    } else {
      assert (a + b)[1..] == a[1..] + b;
      QueueAtAppend(a[1..], b, price);
      assert Prices(a) == {a[0].price} + Prices(a[1..]) by {
        forall p | p in Prices(a) ensures p in {a[0].price} + Prices(a[1..]) {
          var i :| 0 <= i < |a| && a[i].price == p;
          if i > 0 { assert a[1..][i - 1].price == p; }
        }
        forall p | p in Prices(a[1..]) ensures p in Prices(a) {
          var i :| 0 <= i < |a[1..]| && a[1..][i].price == p;
          assert a[i + 1].price == p;
        }
      }
    }
  }

  lemma {:induction false} QueueAtAbsent(l: seq<Level>, price: int)
    requires price !in Prices(l)
    ensures QueueAt(l, price) == []
  {
    if l != [] {
      assert l[0].price in Prices(l);
      assert Prices(l[1..]) <= Prices(l) by {
        forall p | p in Prices(l[1..]) ensures p in Prices(l) {
          var i :| 0 <= i < |l[1..]| && l[1..][i].price == p;
          assert l[i + 1].price == p;
        }
      }
      QueueAtAbsent(l[1..], price);
    }
  }

  /** Every slot sits at some level of the ladder, so (sorted) not before the first one. */
  lemma {:induction false} SlotAtLevel(side: Side, l: seq<Level>, e: (OrderId, int))
    requires e in Slots(l)
    ensures e.0 in Flatten(l)
    ensures exists i :: 0 <= i < |l| && l[i].price == e.1 && e.0 in l[i].queue
    ensures Sorted(side, l) ==> e.1 == l[0].price || Before(side, l[0].price, e.1)
  {
    if e in LevelSlots(l[0]) {
      assert 0 < |l| && l[0].price == e.1 && e.0 in l[0].queue;
    } else {
      SlotAtLevel(side, l[1..], e);
      var i :| 0 <= i < |l[1..]| && l[1..][i].price == e.1 && e.0 in l[1..][i].queue;
      assert l[i + 1] == l[1..][i];
    }
  }

  /** Conversely, every resting id has a slot. */
  lemma {:induction false} FlattenHasSlot(l: seq<Level>, x: OrderId)
    requires x in Flatten(l)
    ensures exists p :: (x, p) in Slots(l)
  {
    if x in l[0].queue {
      assert (x, l[0].price) in LevelSlots(l[0]);
    } else {
      FlattenHasSlot(l[1..], x);
      var p :| (x, p) in Slots(l[1..]);
      assert (x, p) in Slots(l);
    }
  }

  /** In a sorted ladder the level at a slot's price is the one `Position` finds. */
  lemma SlotIsAtPosition(side: Side, l: seq<Level>, e: (OrderId, int))
    requires Sorted(side, l) && e in Slots(l)
    ensures Position(side, l, e.1) < |l|
    ensures l[Position(side, l, e.1)].price == e.1
    ensures e.0 in l[Position(side, l, e.1)].queue
  {
    SlotAtLevel(side, l, e);
    var i :| 0 <= i < |l| && l[i].price == e.1 && e.0 in l[i].queue;
    var k := Position(side, l, e.1);
    assert !(i < k) && !(k < i);
  }

  /** A ladder split around one level. */
  lemma Split3(a: seq<Level>, x: Level, c: seq<Level>)
    ensures Flatten(a + [x] + c) == Flatten(a) + x.queue + Flatten(c)
    ensures Slots(a + [x] + c) == Slots(a) + LevelSlots(x) + Slots(c)
  {
    AppendAssoc(a, [x], c);
    Cons(x, c);
    FlattenAppend(a, [x] + c);
    AppendAssoc(Flatten(a), x.queue, Flatten(c));
    SlotsAppend(a, [x] + c);
  }

  lemma Split3View(a: seq<Level>, x: Level, c: seq<Level>, p: int)
    ensures QueueAt(a + [x] + c, p) ==
      if p in Prices(a) then QueueAt(a, p) else if x.price == p then x.queue else QueueAt(c, p)
  {
    AppendAssoc(a, [x], c);
    ConsParts(x, c);
    QueueAtAppend(a, [x] + c, p);
  }

  lemma ConsParts(x: Level, t: seq<Level>)
    ensures [x] + t != [] && ([x] + t)[0] == x && ([x] + t)[1..] == t
  {
  }

  lemma AppendAssoc<T>(a: seq<T>, b: seq<T>, c: seq<T>)
    ensures a + (b + c) == (a + b) + c
  {
  }

  /** A ladder with one more level in front. */
  lemma Cons(x: Level, t: seq<Level>)
    ensures Flatten([x] + t) == x.queue + Flatten(t)
    ensures Slots([x] + t) == LevelSlots(x) + Slots(t)
  {
    ConsParts(x, t);
  }

  /** A ladder seen as the levels before k, level k, and the levels after it. */
  lemma SplitAround(l: seq<Level>, k: nat)
    requires k < |l|
    ensures Flatten(l) == Flatten(l[..k]) + l[k].queue + Flatten(l[k+1..])
    ensures Slots(l) == Slots(l[..k]) + LevelSlots(l[k]) + Slots(l[k+1..])
  {
    SplitAt(l, k);
    assert l[k..] == [l[k]] + l[k+1..];
    Cons(l[k], l[k+1..]);
    AppendAssoc(Flatten(l[..k]), l[k].queue, Flatten(l[k+1..]));
  }

  /** A ladder seen as the levels before k and the levels from k on. */
  lemma SplitAt(l: seq<Level>, k: nat)
    requires k <= |l|
    ensures Flatten(l) == Flatten(l[..k]) + Flatten(l[k..])
    ensures Slots(l) == Slots(l[..k]) + Slots(l[k..])
  {
    assert l == l[..k] + l[k..];
    FlattenAppend(l[..k], l[k..]);
    SlotsAppend(l[..k], l[k..]);
  }

  lemma SplitAroundView(l: seq<Level>, k: nat, p: int)
    requires k < |l|
    ensures QueueAt(l, p) ==
      if p in Prices(l[..k]) then QueueAt(l[..k], p) else if l[k].price == p then l[k].queue else QueueAt(l[k+1..], p)
  {
    Around(l, k);
    Split3View(l[..k], l[k], l[k+1..], p);
  }

  lemma SplitAtView(l: seq<Level>, k: nat, p: int)
    requires k <= |l|
    ensures QueueAt(l, p) == if p in Prices(l[..k]) then QueueAt(l[..k], p) else QueueAt(l[k..], p)
  {
    SplitId(l, k);
    QueueAtAppend(l[..k], l[k..], p);
  }

  // ---------------------------------------------------------------------
  // Join: the booking of a residual order

  /** Dropping level k keeps the ladder well formed. */
  lemma DeleteOk(side: Side, l: seq<Level>, k: nat)
    requires LadderOk(side, l) && k < |l|
    ensures LadderOk(side, l[..k] + l[k+1..])
  {
    var r := l[..k] + l[k+1..];
    forall i | 0 <= i < |r| ensures r[i] == l[if i < k then i else i + 1] {
    }
    forall i, j | 0 <= i < j < |r| ensures Before(side, r[i].price, r[j].price) {
      assert r[i] == l[if i < k then i else i + 1];
      assert r[j] == l[if j < k then j else j + 1];
    }
  }

  /** Giving level k another non-empty queue keeps the ladder well formed. */
  lemma ReplaceOk(side: Side, l: seq<Level>, k: nat, q: seq<OrderId>)
    requires LadderOk(side, l) && k < |l| && q != []
    ensures LadderOk(side, l[..k] + [Level(l[k].price, q)] + l[k+1..])
  {
    var r := l[..k] + [Level(l[k].price, q)] + l[k+1..];
    forall i | 0 <= i < |r| ensures r[i].price == l[i].price && r[i].queue != [] {
      if i < k { assert r[i] == l[i]; }
      else if i > k { assert r[i] == l[i]; }
    }
  }

  /** A new non-empty level between the levels before it and after it keeps the ladder well formed. */
  lemma InsertOk(side: Side, l: seq<Level>, k: nat, lv: Level)
    requires LadderOk(side, l) && k <= |l| && lv.queue != []
    requires forall i :: 0 <= i < k ==> Before(side, l[i].price, lv.price)
    requires forall i :: k <= i < |l| ==> Before(side, lv.price, l[i].price)
    ensures LadderOk(side, l[..k] + [lv] + l[k..])
  {
    var r := l[..k] + [lv] + l[k..];
    forall i | 0 <= i < |r| ensures r[i] == if i < k then l[i] else if i == k then lv else l[i - 1] {
    }
    forall i, j | 0 <= i < j < |r| ensures Before(side, r[i].price, r[j].price) {
      assert r[i] == if i < k then l[i] else if i == k then lv else l[i - 1];
      assert r[j] == if j < k then l[j] else if j == k then lv else l[j - 1];
    }
  }

  lemma JoinOk(side: Side, l: seq<Level>, price: int, id: OrderId)
    requires LadderOk(side, l)
    ensures LadderOk(side, Join(side, l, price, id))
  {
    var k := Position(side, l, price);
    if k < |l| && l[k].price == price {
      ReplaceOk(side, l, k, l[k].queue + [id]);
    } else {
      InsertOk(side, l, k, Level(price, [id]));
    }
  }

  lemma LevelSlotsAppend(price: int, q: seq<OrderId>, id: OrderId)
    ensures LevelSlots(Level(price, q + [id])) == LevelSlots(Level(price, q)) + {(id, price)}
  {
  }

  /** The slots of a ladder with level x placed between a and c. */
  lemma InsertSlots(a: seq<Level>, x: Level, c: seq<Level>)
    ensures Slots(a + [x] + c) == Slots(a + c) + LevelSlots(x)
  {
    Split3(a, x, c);
    SlotsAppend(a, c);
  }

  /** The resting ids of a ladder with level x placed between a and c. */
  lemma InsertFlatten(a: seq<Level>, x: Level, c: seq<Level>)
    ensures multiset(Flatten(a + [x] + c)) == multiset(Flatten(a + c)) + multiset(x.queue)
  {
    Split3(a, x, c);
    FlattenAppend(a, c);
  }

  lemma SplitId(l: seq<Level>, k: nat)
    requires k <= |l|
    ensures l == l[..k] + l[k..]
  {
  }

  /** Level k of a ladder taken out: what is left is the levels before and after it. */
  lemma Around(l: seq<Level>, k: nat)
    requires k < |l|
    ensures l == l[..k] + [l[k]] + l[k+1..]
  {
  }

  lemma JoinExistingSlots(side: Side, l: seq<Level>, price: int, id: OrderId)
    requires Position(side, l, price) < |l| && l[Position(side, l, price)].price == price
    ensures Slots(Join(side, l, price, id)) == Slots(l) + {(id, price)}
  {
    var k := Position(side, l, price);
    var a, c := l[..k], l[k+1..];
    Around(l, k);
    InsertSlots(a, l[k], c);
    InsertSlots(a, Level(price, l[k].queue + [id]), c);
    LevelSlotsAppend(price, l[k].queue, id);
  }

  lemma JoinExistingFlatten(side: Side, l: seq<Level>, price: int, id: OrderId)
    requires Position(side, l, price) < |l| && l[Position(side, l, price)].price == price
    ensures multiset(Flatten(Join(side, l, price, id))) == multiset(Flatten(l)) + multiset{id}
  {
    var k := Position(side, l, price);
    var a, c := l[..k], l[k+1..];
    Around(l, k);
    InsertFlatten(a, l[k], c);
    InsertFlatten(a, Level(price, l[k].queue + [id]), c);
  }

  lemma JoinNewSlots(side: Side, l: seq<Level>, price: int, id: OrderId)
    requires !(Position(side, l, price) < |l| && l[Position(side, l, price)].price == price)
    ensures Slots(Join(side, l, price, id)) == Slots(l) + {(id, price)}
  {
    var k := Position(side, l, price);
    SplitId(l, k);
    InsertSlots(l[..k], Level(price, [id]), l[k..]);
    assert LevelSlots(Level(price, [id])) == {(id, price)};
  }

  lemma JoinNewFlatten(side: Side, l: seq<Level>, price: int, id: OrderId)
    requires !(Position(side, l, price) < |l| && l[Position(side, l, price)].price == price)
    ensures multiset(Flatten(Join(side, l, price, id))) == multiset(Flatten(l)) + multiset{id}
  {
    var k := Position(side, l, price);
    SplitId(l, k);
    InsertFlatten(l[..k], Level(price, [id]), l[k..]);
  }

  /** Joining adds exactly the slot (id, price) and one occurrence of `id`. */
  lemma JoinContents(side: Side, l: seq<Level>, price: int, id: OrderId)
    ensures Slots(Join(side, l, price, id)) == Slots(l) + {(id, price)}
    ensures multiset(Flatten(Join(side, l, price, id))) == multiset(Flatten(l)) + multiset{id}
  {
    var k := Position(side, l, price);
    if k < |l| && l[k].price == price {
      JoinExistingSlots(side, l, price, id);
      JoinExistingFlatten(side, l, price, id);
    } else {
      JoinNewSlots(side, l, price, id);
      JoinNewFlatten(side, l, price, id);
    }
  }

  /** Where `Position` puts `price` in a sorted ladder, no other level has that price. */
  lemma PositionPrices(side: Side, l: seq<Level>, price: int)
    requires Sorted(side, l)
    ensures var k := Position(side, l, price);
      && price !in Prices(l[..k])
      && (k < |l| && l[k].price == price ==> price !in Prices(l[k+1..]))
      && (!(k < |l| && l[k].price == price) ==> price !in Prices(l[k..]))
  {
    var k := Position(side, l, price);
    assert price !in Prices(l[..k]);
    if k < |l| && l[k].price == price {
      assert price !in Prices(l[k+1..]);
    } else {
      assert price !in Prices(l[k..]);
    }
  }

  lemma JoinViewExisting(side: Side, l: seq<Level>, price: int, id: OrderId, p: int)
    requires LadderOk(side, l)
    requires Position(side, l, price) < |l| && l[Position(side, l, price)].price == price
    ensures QueueAt(Join(side, l, price, id), p) == if p == price then QueueAt(l, p) + [id] else QueueAt(l, p)
  {
    var k := Position(side, l, price);
    PositionPrices(side, l, price);
    SplitAroundView(l, k, p);
    Split3View(l[..k], Level(price, l[k].queue + [id]), l[k+1..], p);
  }

  lemma JoinViewNew(side: Side, l: seq<Level>, price: int, id: OrderId, p: int)
    requires LadderOk(side, l)
    requires !(Position(side, l, price) < |l| && l[Position(side, l, price)].price == price)
    ensures QueueAt(Join(side, l, price, id), p) == if p == price then QueueAt(l, p) + [id] else QueueAt(l, p)
  {
    var k := Position(side, l, price);
    PositionPrices(side, l, price);
    SplitAtView(l, k, p);
    Split3View(l[..k], Level(price, [id]), l[k..], p);
    if p == price {
      QueueAtAbsent(l[k..], price);
    }
  }

  /** The map view of Join: `id` joins the tail of the queue at `price`; no other level changes. */
  lemma JoinView(side: Side, l: seq<Level>, price: int, id: OrderId, p: int)
    requires LadderOk(side, l)
    ensures QueueAt(Join(side, l, price, id), p) == if p == price then QueueAt(l, p) + [id] else QueueAt(l, p)
  {
    var k := Position(side, l, price);
    if k < |l| && l[k].price == price {
      JoinViewExisting(side, l, price, id, p);
    } else {
      JoinViewNew(side, l, price, id, p);
    }
  }

  /** The best level after a join is the old best level or the joined price. */
  lemma JoinFront(side: Side, l: seq<Level>, price: int, id: OrderId)
    ensures Join(side, l, price, id) != []
    ensures Join(side, l, price, id)[0].price == price ||
      (l != [] && Join(side, l, price, id)[0].price == l[0].price)
  {
    var k := Position(side, l, price);
    if k > 0 {
      assert Join(side, l, price, id)[0] == l[0];
    }
  }

  // ---------------------------------------------------------------------
  // PopFront: removing a fully filled best order

  lemma PopFrontOk(side: Side, l: seq<Level>)
    requires l != [] && LadderOk(side, l)
    ensures LadderOk(side, PopFront(l))
    ensures PopFront(l) != [] ==> PopFront(l)[0].price == l[0].price || Before(side, l[0].price, PopFront(l)[0].price)
  {
  }

  lemma HeadTail(s: seq<OrderId>, h: OrderId, r: seq<OrderId>)
    requires s == [h] + r
    ensures s != [] && s[0] == h && s[1..] == r
  {
  }

  /** The ladder's resting ids are the head of the best queue followed by those after popping it. */
  lemma PopFrontCons(l: seq<Level>)
    requires l != [] && l[0].queue != []
    ensures Flatten(l) == [l[0].queue[0]] + Flatten(PopFront(l))
  {
    var q, t := l[0].queue, l[1..];
    assert Flatten(l) == q + Flatten(t);
    if |q| == 1 {
      assert q == [q[0]];
    } else {
      Cons(Level(l[0].price, q[1..]), t);
      assert q == [q[0]] + q[1..];
      AppendAssoc([q[0]], q[1..], Flatten(t));
    }
  }

  lemma PopFrontFlatten(l: seq<Level>)
    requires l != [] && l[0].queue != []
    ensures Flatten(l) != [] && Flatten(l)[0] == l[0].queue[0]
    ensures Flatten(PopFront(l)) == Flatten(l)[1..]
  {
    PopFrontCons(l);
    HeadTail(Flatten(l), l[0].queue[0], Flatten(PopFront(l)));
  }

  lemma PopFrontSlots(l: seq<Level>)
    requires l != [] && l[0].queue != []
    ensures Slots(PopFront(l)) <= Slots(l)
  {
    var q, t := l[0].queue, l[1..];
    assert Slots(l) == LevelSlots(l[0]) + Slots(t);
    if |q| != 1 {
      var nl := Level(l[0].price, q[1..]);
      Cons(nl, t);
      assert LevelSlots(nl) <= LevelSlots(l[0]);
    }
  }

  /** Time priority: the ladder loses exactly its first resting id. */
  lemma PopFrontContents(l: seq<Level>)
    requires l != [] && l[0].queue != []
    ensures Flatten(l) != [] && Flatten(l)[0] == l[0].queue[0]
    ensures Flatten(PopFront(l)) == Flatten(l)[1..]
    ensures Slots(PopFront(l)) <= Slots(l)
  {
    PopFrontFlatten(l);
    PopFrontSlots(l);
  }

  // ---------------------------------------------------------------------
  // Remove: cancellation

  lemma RemoveOk(side: Side, l: seq<Level>, price: int, id: OrderId)
    requires LadderOk(side, l)
    ensures LadderOk(side, Remove(side, l, price, id))
  {
    var k := Position(side, l, price);
    if k < |l| && l[k].price == price {
      var q := RemoveFirst(l[k].queue, id);
      if q == [] {
        DeleteOk(side, l, k);
      } else {
        ReplaceOk(side, l, k, q);
      }
    }
  }

  lemma RemoveFirstSlots(price: int, q: seq<OrderId>, id: OrderId)
    ensures LevelSlots(Level(price, RemoveFirst(q, id))) <= LevelSlots(Level(price, q))
  {
    forall x | x in RemoveFirst(q, id) ensures x in q {
      assert x in multiset(RemoveFirst(q, id));
    }
  }

  lemma RemoveFromLevelSlots(side: Side, l: seq<Level>, price: int, id: OrderId)
    requires Position(side, l, price) < |l| && l[Position(side, l, price)].price == price
    ensures Slots(Remove(side, l, price, id)) <= Slots(l)
  {
    var k := Position(side, l, price);
    var a, c := l[..k], l[k+1..];
    var q := RemoveFirst(l[k].queue, id);
    Around(l, k);
    InsertSlots(a, l[k], c);
    if q != [] {
      InsertSlots(a, Level(price, q), c);
      RemoveFirstSlots(price, l[k].queue, id);
    }
  }

  lemma MultisetSwap(m: multiset<OrderId>, x: multiset<OrderId>, y: multiset<OrderId>)
    ensures m + x - x + y == m + y
  {
    assert m + x - x == m;
  }

  lemma RemoveFromLevelFlatten(side: Side, l: seq<Level>, price: int, id: OrderId)
    requires Position(side, l, price) < |l| && l[Position(side, l, price)].price == price
    ensures multiset(Flatten(Remove(side, l, price, id))) ==
      multiset(Flatten(l)) - multiset(l[Position(side, l, price)].queue)
        + multiset(RemoveFirst(l[Position(side, l, price)].queue, id))
  {
    var k := Position(side, l, price);
    var a, c := l[..k], l[k+1..];
    var q := RemoveFirst(l[k].queue, id);
    Around(l, k);
    InsertFlatten(a, l[k], c);
    MultisetSwap(multiset(Flatten(a + c)), multiset(l[k].queue), multiset(q));
    if q != [] {
      InsertFlatten(a, Level(price, q), c);
    } else {
      assert multiset(q) == multiset{};
    }
  }


  lemma RemoveFromLevel(side: Side, l: seq<Level>, price: int, id: OrderId)
    requires Position(side, l, price) < |l| && l[Position(side, l, price)].price == price
    ensures Slots(Remove(side, l, price, id)) <= Slots(l)
    ensures multiset(Flatten(Remove(side, l, price, id))) ==
      multiset(Flatten(l)) - multiset(l[Position(side, l, price)].queue)
        + multiset(RemoveFirst(l[Position(side, l, price)].queue, id))
  {
    RemoveFromLevelSlots(side, l, price, id);
    RemoveFromLevelFlatten(side, l, price, id);
  }

  lemma MultisetReplace(m: multiset<OrderId>, q: multiset<OrderId>, id: OrderId)
    requires q <= m && id in q
    ensures m - q + (q - multiset{id}) == m - multiset{id}
  {
    assert forall x :: (m - q + (q - multiset{id}))[x] == (m - multiset{id})[x];
  }

  /** Removing keeps only slots that were there and drops `id` when it rests at `price`. */
  lemma RemoveContents(side: Side, l: seq<Level>, price: int, id: OrderId)
    requires Sorted(side, l)
    ensures Slots(Remove(side, l, price, id)) <= Slots(l)
    ensures (id, price) in Slots(l) ==>
      multiset(Flatten(Remove(side, l, price, id))) == multiset(Flatten(l)) - multiset{id}
  {
    var k := Position(side, l, price);
    if k < |l| && l[k].price == price {
      RemoveFromLevel(side, l, price, id);
      if (id, price) in Slots(l) {
        SlotIsAtPosition(side, l, (id, price));
        var q := l[k].queue;
        assert multiset(q) <= multiset(Flatten(l)) by {
          SplitAround(l, k);
        }
        MultisetReplace(multiset(Flatten(l)), multiset(q), id);
      }
    } else if (id, price) in Slots(l) {
      SlotIsAtPosition(side, l, (id, price));
      assert false;
    }
  }

  lemma RemoveViewDrop(side: Side, l: seq<Level>, price: int, id: OrderId, p: int)
    requires LadderOk(side, l)
    requires Position(side, l, price) < |l| && l[Position(side, l, price)].price == price
    requires RemoveFirst(l[Position(side, l, price)].queue, id) == []
    ensures QueueAt(Remove(side, l, price, id), p) ==
      if p == price then RemoveFirst(QueueAt(l, p), id) else QueueAt(l, p)
  {
    var k := Position(side, l, price);
    PositionPrices(side, l, price);
    SplitAroundView(l, k, p);
    QueueAtAppend(l[..k], l[k+1..], p);
    if p == price {
      QueueAtAbsent(l[k+1..], price);
    }
  }

  lemma RemoveViewKeep(side: Side, l: seq<Level>, price: int, id: OrderId, p: int)
    requires LadderOk(side, l)
    requires Position(side, l, price) < |l| && l[Position(side, l, price)].price == price
    requires RemoveFirst(l[Position(side, l, price)].queue, id) != []
    ensures QueueAt(Remove(side, l, price, id), p) ==
      if p == price then RemoveFirst(QueueAt(l, p), id) else QueueAt(l, p)
  {
    var k := Position(side, l, price);
    PositionPrices(side, l, price);
    SplitAroundView(l, k, p);
    Split3View(l[..k], Level(price, RemoveFirst(l[k].queue, id)), l[k+1..], p);
  }

  /** The map view of Remove: the queue at `price` loses `id`; no other level changes. */
  lemma RemoveView(side: Side, l: seq<Level>, price: int, id: OrderId, p: int)
    requires LadderOk(side, l)
    ensures QueueAt(Remove(side, l, price, id), p) ==
      if p == price then RemoveFirst(QueueAt(l, p), id) else QueueAt(l, p)
  {
    var k := Position(side, l, price);
    if k < |l| && l[k].price == price {
      if RemoveFirst(l[k].queue, id) == [] {
        RemoveViewDrop(side, l, price, id, p);
      } else {
        RemoveViewKeep(side, l, price, id, p);
      }
    } else if p == price {
      PositionPrices(side, l, price);
      SplitAtView(l, k, p);
      QueueAtAbsent(l[k..], price);
    }
  }

  /** Cancelling never improves the best price of a ladder. */
  lemma RemoveFront(side: Side, l: seq<Level>, price: int, id: OrderId)
    requires Sorted(side, l)
    ensures var r := Remove(side, l, price, id);
      r != [] ==> l != [] && (r[0].price == l[0].price || Before(side, l[0].price, r[0].price))
  {
    var k := Position(side, l, price);
    var r := Remove(side, l, price, id);
    if r != [] && k < |l| && l[k].price == price {
      if k > 0 {
        assert r[0] == l[0];
      } else if RemoveFirst(l[k].queue, id) == [] {
        assert r[0] == l[1];
      }
    }
  }

  /** In a sorted ladder, a resting id is in the queue the map view gives for its price. */
  lemma SlotInQueueAt(side: Side, l: seq<Level>, e: (OrderId, int))
    requires Sorted(side, l) && e in Slots(l)
    ensures e.0 in QueueAt(l, e.1)
  {
    SlotIsAtPosition(side, l, e);
    var k := Position(side, l, e.1);
    assert e.1 !in Prices(l[..k]);
    SplitAroundView(l, k, e.1);
  }
}
