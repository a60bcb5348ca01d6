/**
 The order book of one instrument: a bid side and an ask side of aggregated price levels, and
 an index from order id to the resting order (reconstruction.cpp:31-111).

 `Book` is the book's value; `AddSpec`, `CancelSpec` and `ModifySpec` are what the book's
 operations do to it, and the class `OrderBook` performs them in place on its fields.
 */
module OrderBooks {
  import opened Wrappers
  import opened Levels

  /** A resting order as the index keeps it; side is 'B' (bid), 'A' (ask) or any other character. */
  datatype Order = Order(id: int, side: char, price: int, size: int)

  /** The book's value: bid levels best-first, ask levels best-first, and the order index. */
  datatype Book = Book(bids: seq<Level>, asks: seq<Level>, orders: map<int, Order>)

  /** A book with no levels and no orders. */
  const EmptyBook := Book([], [], map[])

  /** Both sides are in map order. */
  ghost predicate Sorted(b: Book)
  {
    Ordered(b.bids, Bids) && Ordered(b.asks, Asks)
  }

  /** Looks an id up in the order index. */
  function Find(orders: map<int, Order>, id: int): Option<Order>
  {
    if id in orders then Some(orders[id]) else None
  }

  /**
   addOrder: the index entry for the id is (over)written, and a bid or ask order joins the level
   at its price; an order on any other side only enters the index (reconstruction.cpp:38-50).
   */
  function AddSpec(b: Book, id: int, side: char, price: int, size: int): Book
  {
    var orders := b.orders[id := Order(id, side, price, size)];
    if side == 'B' then Book(Joined(b.bids, Bids, price, size), b.asks, orders)
    else if side == 'A' then Book(b.bids, Joined(b.asks, Asks, price, size), orders)
    else b.(orders := orders)
  }

  /**
   cancelOrder: an unknown id changes nothing; a known one is withdrawn from the level of its
   side at its price and leaves the index (reconstruction.cpp:52-78).
   */
  function CancelSpec(b: Book, id: int): Book
  {
    match Find(b.orders, id)
    case None => b
    case Some(o) =>
      var orders := b.orders - {id};
      if o.side == 'B' then Book(Withdrawn(b.bids, o.price, o.size), b.asks, orders)
      else if o.side == 'A' then Book(b.bids, Withdrawn(b.asks, o.price, o.size), orders)
      else b.(orders := orders)
  }

  /**
   modifyOrder as written: cancel the order, then look the id up again and re-add it with its
   side at the new price and size if it is still there (reconstruction.cpp:80-86).
   */
  function ModifySpec(b: Book, id: int, price: int, size: int): Book
  {
    var c := CancelSpec(b, id);
    match Find(c.orders, id)
    case Some(o) => AddSpec(c, id, o.side, price, size)
    case None => c
  }

  /**
   Adding an order writes its index entry and leaves every other entry alone; a bid (ask) order
   grows the bid (ask) level at its price by its size and by one order, starting from an empty
   level, and leaves every other level of both sides alone; an order on any other side changes
   no level. Both sides stay in map order.
   */
  lemma AddOrderEffect(b: Book, id: int, side: char, price: int, size: int)
    requires Sorted(b)
    ensures var r := AddSpec(b, id, side, price, size);
      && Sorted(r)
      && id in r.orders && r.orders[id] == Order(id, side, price, size)
      && (forall k :: k != id ==> (k in r.orders <==> k in b.orders))
      && (forall k :: k != id && k in b.orders ==> r.orders[k] == b.orders[k])
    ensures side == 'B' ==>
      var r := AddSpec(b, id, side, price, size);
      && LevelAt(r.bids, price) == Some(Level(price, Prior(b.bids, price).size + size, Prior(b.bids, price).count + 1))
      && (forall q :: q != price ==> LevelAt(r.bids, q) == LevelAt(b.bids, q))
      && r.asks == b.asks
    ensures side == 'A' ==>
      var r := AddSpec(b, id, side, price, size);
      && LevelAt(r.asks, price) == Some(Level(price, Prior(b.asks, price).size + size, Prior(b.asks, price).count + 1))
      && (forall q :: q != price ==> LevelAt(r.asks, q) == LevelAt(b.asks, q))
      && r.bids == b.bids
    ensures side != 'B' && side != 'A' ==>
      AddSpec(b, id, side, price, size).bids == b.bids && AddSpec(b, id, side, price, size).asks == b.asks
  {
    JoinedEffect(b.bids, Bids, price, size);
    JoinedEffect(b.asks, Asks, price, size);
  }

  /**
   Cancelling an unknown id changes nothing. Cancelling a live order removes its index entry and
   no other; on its side, the level at its price loses exactly its size and one order and is
   erased iff the size left is no longer positive; every other level of both sides is kept, and
   both sides stay in map order. When its side has no level at its price, no level changes.
   */
  lemma CancelOrderEffect(b: Book, id: int)
    requires Sorted(b)
    ensures id !in b.orders ==> CancelSpec(b, id) == b
    ensures var r := CancelSpec(b, id);
      && Sorted(r)
      && id !in r.orders
      && (forall k :: k != id ==> (k in r.orders <==> k in b.orders))
      && (forall k :: k != id && k in b.orders ==> r.orders[k] == b.orders[k])
    ensures id in b.orders && b.orders[id].side == 'B' && LevelAt(b.bids, b.orders[id].price).Some? ==>
      var o := b.orders[id];
      var l := LevelAt(b.bids, o.price).value;
      var r := CancelSpec(b, id);
      && LevelAt(r.bids, o.price) == (if l.size - o.size <= 0 then None else Some(Level(o.price, l.size - o.size, l.count - 1)))
      && (forall q :: q != o.price ==> LevelAt(r.bids, q) == LevelAt(b.bids, q))
      && r.asks == b.asks
    ensures id in b.orders && b.orders[id].side == 'A' && LevelAt(b.asks, b.orders[id].price).Some? ==>
      var o := b.orders[id];
      var l := LevelAt(b.asks, o.price).value;
      var r := CancelSpec(b, id);
      && LevelAt(r.asks, o.price) == (if l.size - o.size <= 0 then None else Some(Level(o.price, l.size - o.size, l.count - 1)))
      && (forall q :: q != o.price ==> LevelAt(r.asks, q) == LevelAt(b.asks, q))
      && r.bids == b.bids
    ensures id in b.orders && b.orders[id].side != 'B' && b.orders[id].side != 'A' ==>
      CancelSpec(b, id).bids == b.bids && CancelSpec(b, id).asks == b.asks
    ensures id in b.orders
            && ((b.orders[id].side == 'B' && LevelAt(b.bids, b.orders[id].price).None?)
                || (b.orders[id].side == 'A' && LevelAt(b.asks, b.orders[id].price).None?)) ==>
      CancelSpec(b, id).bids == b.bids && CancelSpec(b, id).asks == b.asks
  {
    if id in b.orders {
      var o := b.orders[id];
      WithdrawnEffect(b.bids, Bids, o.price, o.size);
      WithdrawnEffect(b.asks, Asks, o.price, o.size);
    }
  }

  /**
   Modify leaves exactly the book and index that cancel leaves, and the id is no longer live:
   cancel erases the id, so the lookup before the re-add always fails.
   */
  lemma ModifyIsCancel(b: Book, id: int, price: int, size: int)
    ensures ModifySpec(b, id, price, size) == CancelSpec(b, id)
    ensures id !in ModifySpec(b, id, price, size).orders
  {
  }

  /** The order book, updated in place by the reconstructor. */
  class OrderBook {
    var bids: seq<Level>
    var asks: seq<Level>
    var orders: map<int, Order>

    ghost function Model(): Book
      reads this
    {
      Book(bids, asks, orders)
    }

    constructor ()
      ensures Model() == EmptyBook
    {
      bids, asks, orders := [], [], map[];
    }

    method AddOrder(id: int, side: char, price: int, size: int)
      modifies this
      ensures Model() == AddSpec(old(Model()), id, side, price, size)
    {
      orders := orders[id := Order(id, side, price, size)];
      if side == 'B' {
        bids := Joined(bids, Bids, price, size);
      } else if side == 'A' {
        asks := Joined(asks, Asks, price, size);
      }
    }

    method CancelOrder(id: int)
      modifies this
      ensures Model() == CancelSpec(old(Model()), id)
    {
      if id !in orders {
        return;
      }
      var order := orders[id];
      if order.side == 'B' {
        bids := Withdrawn(bids, order.price, order.size);
      } else if order.side == 'A' {
        asks := Withdrawn(asks, order.price, order.size);
      }
      orders := orders - {id};
    }

    method ModifyOrder(id: int, newPrice: int, newSize: int)
      modifies this
      ensures Model() == ModifySpec(old(Model()), id, newPrice, newSize)
      ensures Model() == CancelSpec(old(Model()), id) && id !in orders
    {
      CancelOrder(id);
      match Find(orders, id) {
        case Some(o) => AddOrder(id, o.side, newPrice, newSize);
        case None =>
      }
      ModifyIsCancel(old(Model()), id, newPrice, newSize);
    }

    method Clear()
      modifies this
      ensures Model() == EmptyBook
    {
      bids, asks, orders := [], [], map[];
    }

    /** The first n bid levels, best (highest price) first; the book is not changed. */
    method GetBids(n: int) returns (r: seq<Level>)
      ensures r == Top(bids, n)
    {
      r := TopLevels(bids, n);
    }

    /** The first n ask levels, best (lowest price) first; the book is not changed. */
    method GetAsks(n: int) returns (r: seq<Level>)
      ensures r == Top(asks, n)
    {
      r := TopLevels(asks, n);
    }
  }
}
