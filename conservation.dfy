/**
 Size and count conservation for the order book (reconstruction.cpp:33-78).

 The claim is that each level holds exactly what the live orders on its side at its price add
 up to, and that a level exists exactly while at least one such order is live. The sums over
 the live orders are taken along an enumeration `ids` of the index's keys, each live id once.
 The invariant holds for any sequence of adds with fresh ids and positive sizes, interleaved
 with cancels, modifies and clears.
 */
module Conservation {
  import opened Wrappers
  import opened Levels
  import opened OrderBooks

  /** The id is live and its order rests on the given side at the given price. */
  predicate Rests(orders: map<int, Order>, id: int, side: char, price: int)
  {
    id in orders && orders[id].side == side && orders[id].price == price
  }

  /** The size the order under an id contributes to a side and price. */
  function SizeOf(orders: map<int, Order>, id: int, side: char, price: int): int
  {
    if Rests(orders, id, side, price) then orders[id].size else 0
  }

  /** The number of orders (0 or 1) the id contributes to a side and price. */
  function CountOf(orders: map<int, Order>, id: int, side: char, price: int): int
  {
    if Rests(orders, id, side, price) then 1 else 0
  }

  /** The total size of the listed live orders on a side at a price. */
  function Volume(ids: seq<int>, orders: map<int, Order>, side: char, price: int): int
  {
    if ids == [] then 0 else SizeOf(orders, ids[0], side, price) + Volume(ids[1..], orders, side, price)
  }

  /** The number of listed live orders on a side at a price. */
  function Count(ids: seq<int>, orders: map<int, Order>, side: char, price: int): int
  {
    if ids == [] then 0 else CountOf(orders, ids[0], side, price) + Count(ids[1..], orders, side, price)
  }

  /** The level a side should hold at a price: none while no listed order rests there. */
  function Aggregate(ids: seq<int>, orders: map<int, Order>, side: char, price: int): Option<Level>
  {
    var n := Count(ids, orders, side, price);
    if n > 0 then Some(Level(price, Volume(ids, orders, side, price), n)) else None
  }

  /** ids lists every live order id exactly once, and nothing else. */
  ghost predicate Enumerates(ids: seq<int>, orders: map<int, Order>)
  {
    && (forall i, j :: 0 <= i < j < |ids| ==> ids[i] != ids[j])
    && (forall i :: 0 <= i < |ids| ==> ids[i] in orders)
    && (forall k :: k in orders ==> k in ids)
  }

  /** Every level of both sides is what the live orders on that side at that price add up to. */
  ghost predicate Conserved(b: Book, ids: seq<int>)
  {
    && (forall p :: LevelAt(b.bids, p) == Aggregate(ids, b.orders, 'B', p))
    && (forall p :: LevelAt(b.asks, p) == Aggregate(ids, b.orders, 'A', p))
  }

  /** Every resting order has a positive size. */
  ghost predicate PositiveSizes(orders: map<int, Order>)
  {
    forall k :: k in orders ==> orders[k].size > 0
  }

  /**
   The book invariant: both sides in map order, every resting order of positive size, and the
   levels conserved along some enumeration of the live orders.
   */
  ghost predicate Consistent(b: Book)
  {
    && Sorted(b)
    && PositiveSizes(b.orders)
    && exists ids :: Enumerates(ids, b.orders) && Conserved(b, ids)
  }

  /** Taking one listed id out of the enumeration takes exactly its contribution out of the sums. */
  lemma {:induction false} TallyWithout(ids: seq<int>, i: nat, orders: map<int, Order>, side: char, price: int)
    requires i < |ids|
    ensures Volume(ids, orders, side, price)
            == SizeOf(orders, ids[i], side, price) + Volume(ids[..i] + ids[i + 1..], orders, side, price)
    ensures Count(ids, orders, side, price)
            == CountOf(orders, ids[i], side, price) + Count(ids[..i] + ids[i + 1..], orders, side, price)
  {
    if i == 0 {
      assert ids[..0] + ids[1..] == ids[1..];
    } else {
      var tail := ids[1..];
      var rest := ids[..i] + ids[i + 1..];
      TallyWithout(tail, i - 1, orders, side, price);
      assert tail[i - 1] == ids[i];
      assert rest[0] == ids[0];
      assert rest[1..] == tail[..i - 1] + tail[i..];
    }
  }

  /** Two indexes that agree on every listed id give the same sums. */
  lemma {:induction false} TallyAgree(ids: seq<int>, o1: map<int, Order>, o2: map<int, Order>, side: char, price: int)
    requires forall i :: 0 <= i < |ids| ==> Find(o1, ids[i]) == Find(o2, ids[i])
    ensures Volume(ids, o1, side, price) == Volume(ids, o2, side, price)
    ensures Count(ids, o1, side, price) == Count(ids, o2, side, price)
  {
    if ids != [] {
      assert Find(o1, ids[0]) == Find(o2, ids[0]);
      TallyAgree(ids[1..], o1, o2, side, price);
    }
  }

  /** With positive order sizes, the listed orders have a positive total size exactly when there are some. */
  lemma {:induction false} TallySign(ids: seq<int>, orders: map<int, Order>, side: char, price: int)
    requires PositiveSizes(orders)
    ensures Count(ids, orders, side, price) >= 0
    ensures Volume(ids, orders, side, price) >= 0
    ensures Count(ids, orders, side, price) > 0 <==> Volume(ids, orders, side, price) > 0
  {
    if ids != [] {
      TallySign(ids[1..], orders, side, price);
    }
  }

  /** A positive count is made by some listed live order on that side at that price. */
  lemma {:induction false} TallyWitness(ids: seq<int>, orders: map<int, Order>, side: char, price: int) returns (i: nat)
    requires Count(ids, orders, side, price) > 0
    ensures i < |ids| && Rests(orders, ids[i], side, price)
  {
    if Rests(orders, ids[0], side, price) {
      i := 0;
    } else {
      var j := TallyWitness(ids[1..], orders, side, price);
      i := j + 1;
    }
  }

  /** A listed live order on a side at a price makes the count there positive. */
  lemma TallyCountsListed(ids: seq<int>, i: nat, orders: map<int, Order>, side: char, price: int)
    requires PositiveSizes(orders)
    requires i < |ids| && Rests(orders, ids[i], side, price)
    ensures Count(ids, orders, side, price) > 0
  {
    TallyWithout(ids, i, orders, side, price);
    TallySign(ids[..i] + ids[i + 1..], orders, side, price);
  }

  /** The empty book is consistent. */
  lemma EmptyBookConsistent()
    ensures Consistent(EmptyBook)
  {
    var ids: seq<int> := [];
    assert Enumerates(ids, EmptyBook.orders);
    assert Conserved(EmptyBook, ids);
  }

  /** One side after an add: the level at the price takes the new order's share, nothing else moves. */
  lemma JoinedConserves(
    levels: seq<Level>, ladder: Ladder, side: char, ids: seq<int>, ids': seq<int>,
    before: map<int, Order>, after: map<int, Order>, id: int, o: Order)
    requires Ordered(levels, ladder) && PositiveSizes(before)
    requires forall p :: LevelAt(levels, p) == Aggregate(ids, before, side, p)
    requires forall p :: Volume(ids', after, side, p) == SizeOf(after, id, side, p) + Volume(ids, before, side, p)
    requires forall p :: Count(ids', after, side, p) == CountOf(after, id, side, p) + Count(ids, before, side, p)
    requires Find(after, id) == Some(o) && o.side == side && o.size > 0
    ensures forall p :: LevelAt(Joined(levels, ladder, o.price, o.size), p) == Aggregate(ids', after, side, p)
  {
    JoinedEffect(levels, ladder, o.price, o.size);
    forall p ensures LevelAt(Joined(levels, ladder, o.price, o.size), p) == Aggregate(ids', after, side, p) {
      TallySign(ids, before, side, p);
    }
  }

  /** One side after a cancel: the level at the order's price gives up its share, nothing else moves. */
  lemma WithdrawnConserves(
    levels: seq<Level>, ladder: Ladder, side: char, ids: seq<int>, ids': seq<int>,
    before: map<int, Order>, after: map<int, Order>, id: int, o: Order)
    requires Ordered(levels, ladder) && PositiveSizes(after)
    requires forall p :: LevelAt(levels, p) == Aggregate(ids, before, side, p)
    requires forall p :: Volume(ids, before, side, p) == SizeOf(before, id, side, p) + Volume(ids', after, side, p)
    requires forall p :: Count(ids, before, side, p) == CountOf(before, id, side, p) + Count(ids', after, side, p)
    requires Find(before, id) == Some(o) && o.side == side && o.size > 0
    ensures forall p :: LevelAt(Withdrawn(levels, o.price, o.size), p) == Aggregate(ids', after, side, p)
  {
    WithdrawnEffect(levels, ladder, o.price, o.size);
    forall p ensures LevelAt(Withdrawn(levels, o.price, o.size), p) == Aggregate(ids', after, side, p) {
      TallySign(ids', after, side, p);
    }
  }

  /** Appending a fresh id to an enumeration enumerates the index with that id added. */
  lemma EnumeratesAppend(ids: seq<int>, orders: map<int, Order>, id: int, o: Order)
    requires Enumerates(ids, orders) && id !in orders
    ensures Enumerates(ids + [id], orders[id := o])
  {
  }

  /** Appending a fresh live id to an enumeration adds exactly that order's contribution. */
  lemma TallyAppend(ids: seq<int>, before: map<int, Order>, id: int, o: Order, side: char, price: int)
    requires Enumerates(ids, before) && id !in before
    ensures var after := before[id := o];
      && Volume(ids + [id], after, side, price) == SizeOf(after, id, side, price) + Volume(ids, before, side, price)
      && Count(ids + [id], after, side, price) == CountOf(after, id, side, price) + Count(ids, before, side, price)
  {
    var after := before[id := o];
    var ids' := ids + [id];
    TallyWithout(ids', |ids|, after, side, price);
    assert ids'[..|ids|] + ids'[|ids| + 1..] == ids;
    TallyAgree(ids, after, before, side, price);
  }

  /** Adding a fresh live order conserves the levels along the enumeration with its id appended. */
  lemma AddConserves(b: Book, ids: seq<int>, id: int, side: char, price: int, size: int)
    requires Sorted(b) && PositiveSizes(b.orders)
    requires Enumerates(ids, b.orders) && Conserved(b, ids) && id !in b.orders && size > 0
    ensures Conserved(AddSpec(b, id, side, price, size), ids + [id])
  {
    var r := AddSpec(b, id, side, price, size);
    var o := Order(id, side, price, size);
    var ids' := ids + [id];
    assert r.orders == b.orders[id := o];
    forall s, p ensures
      && Volume(ids', r.orders, s, p) == SizeOf(r.orders, id, s, p) + Volume(ids, b.orders, s, p)
      && Count(ids', r.orders, s, p) == CountOf(r.orders, id, s, p) + Count(ids, b.orders, s, p)
    {
      TallyAppend(ids, b.orders, id, o, s, p);
    }
    if side == 'B' {
      JoinedConserves(b.bids, Bids, 'B', ids, ids', b.orders, r.orders, id, o);
    } else if side == 'A' {
      JoinedConserves(b.asks, Asks, 'A', ids, ids', b.orders, r.orders, id, o);
    }
  }

  /** An add of a fresh id with a positive size keeps the book consistent. */
  lemma AddPreservesConsistency(b: Book, id: int, side: char, price: int, size: int)
    requires Consistent(b) && id !in b.orders && size > 0
    ensures Consistent(AddSpec(b, id, side, price, size))
  {
    var ids :| Enumerates(ids, b.orders) && Conserved(b, ids);
    AddOrderEffect(b, id, side, price, size);
    EnumeratesAppend(ids, b.orders, id, Order(id, side, price, size));
    AddConserves(b, ids, id, side, price, size);
  }

  /** Removing the entry at index i of an enumeration enumerates the index without that id. */
  lemma EnumeratesWithout(ids: seq<int>, i: nat, orders: map<int, Order>)
    requires Enumerates(ids, orders) && i < |ids|
    ensures Enumerates(ids[..i] + ids[i + 1..], orders - {ids[i]})
  {
  }

  /** Removing a listed id from the index and from the enumeration takes exactly its contribution away. */
  lemma TallyRemove(ids: seq<int>, i: nat, before: map<int, Order>, side: char, price: int)
    requires Enumerates(ids, before) && i < |ids|
    ensures var ids' := ids[..i] + ids[i + 1..];
      var after := before - {ids[i]};
      && Volume(ids, before, side, price) == SizeOf(before, ids[i], side, price) + Volume(ids', after, side, price)
      && Count(ids, before, side, price) == CountOf(before, ids[i], side, price) + Count(ids', after, side, price)
  {
    var ids' := ids[..i] + ids[i + 1..];
    var after := before - {ids[i]};
    TallyWithout(ids, i, before, side, price);
    forall a | 0 <= a < |ids'| ensures Find(before, ids'[a]) == Find(after, ids'[a]) {
      if a < i { assert ids'[a] == ids[a]; } else { assert ids'[a] == ids[a + 1]; }
    }
    TallyAgree(ids', before, after, side, price);
  }

  /** Cancelling the live order listed at index i conserves the levels along the enumeration without it. */
  lemma CancelConserves(b: Book, ids: seq<int>, i: nat)
    requires Sorted(b) && PositiveSizes(b.orders)
    requires Enumerates(ids, b.orders) && Conserved(b, ids) && i < |ids|
    ensures Conserved(CancelSpec(b, ids[i]), ids[..i] + ids[i + 1..])
  {
    var id := ids[i];
    var r := CancelSpec(b, id);
    var o := b.orders[id];
    var ids' := ids[..i] + ids[i + 1..];
    assert r.orders == b.orders - {id};
    forall s, p ensures
      && Volume(ids, b.orders, s, p) == SizeOf(b.orders, id, s, p) + Volume(ids', r.orders, s, p)
      && Count(ids, b.orders, s, p) == CountOf(b.orders, id, s, p) + Count(ids', r.orders, s, p)
    {
      TallyRemove(ids, i, b.orders, s, p);
    }
    if o.side == 'B' {
      WithdrawnConserves(b.bids, Bids, 'B', ids, ids', b.orders, r.orders, id, o);
    } else if o.side == 'A' {
      WithdrawnConserves(b.asks, Asks, 'A', ids, ids', b.orders, r.orders, id, o);
    }
  }

  /** A cancel keeps the book consistent, whether or not the id is live. */
  lemma CancelPreservesConsistency(b: Book, id: int)
    requires Consistent(b)
    ensures Consistent(CancelSpec(b, id))
  {
    CancelOrderEffect(b, id);
    if id in b.orders {
      var ids :| Enumerates(ids, b.orders) && Conserved(b, ids);
      assert id in ids;
      var i :| 0 <= i < |ids| && ids[i] == id;
      EnumeratesWithout(ids, i, b.orders);
      CancelConserves(b, ids, i);
      assert CancelSpec(b, id).orders == b.orders - {id};
    }
  }

  /** A modify keeps the book consistent: it is a cancel. */
  lemma ModifyPreservesConsistency(b: Book, id: int, price: int, size: int)
    requires Consistent(b)
    ensures Consistent(ModifySpec(b, id, price, size))
  {
    ModifyIsCancel(b, id, price, size);
    CancelPreservesConsistency(b, id);
  }

  /**
   In a consistent book a side has a level at a price exactly when some live order rests on that
   side at that price, and every level has a positive size and a positive count.
   */
  lemma LevelIffOrderLive(b: Book, side: char, p: int)
    requires Consistent(b) && (side == 'B' || side == 'A')
    ensures var levels := if side == 'B' then b.bids else b.asks;
      && (LevelAt(levels, p).Some? <==> exists k :: Rests(b.orders, k, side, p))
      && (LevelAt(levels, p).Some? ==> LevelAt(levels, p).value.size > 0 && LevelAt(levels, p).value.count > 0)
  {
    var ids :| Enumerates(ids, b.orders) && Conserved(b, ids);
    var levels := if side == 'B' then b.bids else b.asks;
    assert LevelAt(levels, p) == Aggregate(ids, b.orders, side, p);
    TallySign(ids, b.orders, side, p);
    if LevelAt(levels, p).Some? {
      var i := TallyWitness(ids, b.orders, side, p);
      assert Rests(b.orders, ids[i], side, p);
    }
    if exists k :: Rests(b.orders, k, side, p) {
      var k :| Rests(b.orders, k, side, p);
      assert k in ids;
      var i :| 0 <= i < |ids| && ids[i] == k;
      TallyCountsListed(ids, i, b.orders, side, p);
    }
  }
}
