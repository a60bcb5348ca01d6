/**
 Price levels and the two price-ordered level maps of the book.

 Each side of the book is an ordered map from price (in ticks) to its aggregated level: the
 bid map is ordered best-first by descending price, the ask map by ascending price. A side is
 modelled as the sequence of its entries in map order, so that walking the map from its
 beginning is reading the sequence from index 0; `Ordered` is the ordering every such
 sequence keeps, and it makes the prices distinct, as the keys of a map are.
 */
module Levels {
  import opened Wrappers

  /** One aggregated price level: its price, total resting size and number of resting orders. */
  datatype Level = Level(price: int, size: int, count: int)

  /** Which side's ordering: bids best-first by descending price, asks by ascending price. */
  datatype Ladder = Bids | Asks

  /** Price p comes strictly before price q in the ladder's order. */
  predicate Ahead(ladder: Ladder, p: int, q: int)
  {
    match ladder
    case Bids => p > q
    case Asks => p < q
  }

  /** The levels are in strict map order, so no price occurs twice. */
  ghost predicate Ordered(levels: seq<Level>, ladder: Ladder)
  {
    forall i, j :: 0 <= i < j < |levels| ==> Ahead(ladder, levels[i].price, levels[j].price)
  }

  function Min(a: int, b: int): int
  {
    if a <= b then a else b
  }

  /** The index of the first level with the given price, if there is one: a lookup by key. */
  function Locate(levels: seq<Level>, price: int): (r: Option<nat>)
    ensures r.Some? ==> r.value < |levels| && levels[r.value].price == price
    ensures r.Some? ==> forall j :: 0 <= j < r.value ==> levels[j].price != price
    ensures r.None? ==> forall j :: 0 <= j < |levels| ==> levels[j].price != price
  {
    if levels == [] then None
    else if levels[0].price == price then Some(0)
    else
      match Locate(levels[1..], price)
      case None => None
      case Some(k) => Some(k + 1)
  }

  /** The level stored under a price, if any. */
  function LevelAt(levels: seq<Level>, price: int): Option<Level>
  {
    match Locate(levels, price)
    case Some(i) => Some(levels[i])
    case None => None
  }

  /** The number of levels that rank ahead of a price: where a new level at that price goes. */
  function Slot(levels: seq<Level>, ladder: Ladder, price: int): (k: nat)
    ensures k <= |levels|
    ensures forall i :: 0 <= i < k ==> Ahead(ladder, levels[i].price, price)
    ensures k < |levels| ==> !Ahead(ladder, levels[k].price, price)
  {
    if levels == [] || !Ahead(ladder, levels[0].price, price) then 0
    else 1 + Slot(levels[1..], ladder, price)
  }

  /**
   Adds an order's size to the level at a price and counts one more order there; a price with
   no level gets a new one, which starts from size 0 and count 0 (reconstruction.cpp:42-44).
   */
  function Joined(levels: seq<Level>, ladder: Ladder, price: int, size: int): seq<Level>
  {
    match Locate(levels, price)
    case Some(i) => levels[i := Level(price, levels[i].size + size, levels[i].count + 1)]
    case None =>
      var k := Slot(levels, ladder, price);
      levels[..k] + [Level(price, size, 1)] + levels[k..]
  }

  /**
   Takes an order's size and one order off the level at a price, erasing the level once its
   size is no longer positive; nothing happens when no level has that price
   (reconstruction.cpp:58-64).
   */
  function Withdrawn(levels: seq<Level>, price: int, size: int): seq<Level>
  {
    match Locate(levels, price)
    case Some(i) =>
      var l := levels[i];
      if l.size - size <= 0 then levels[..i] + levels[i + 1..]
      else levels[i := Level(l.price, l.size - size, l.count - 1)]
    case None => levels
  }

  /** The level a lookup-and-insert at a price starts from: the stored one, or an empty one. */
  function Prior(levels: seq<Level>, price: int): Level
  {
    match LevelAt(levels, price)
    case Some(l) => l
    case None => Level(price, 0, 0)
  }

  /** Erasing the entry at index i leaves the lookup of every other price as it was. */
  lemma {:induction false} LocateAfterErase(levels: seq<Level>, i: nat, q: int)
    requires i < |levels| && levels[i].price != q
    ensures LevelAt(levels[..i] + levels[i + 1..], q) == LevelAt(levels, q)
  {
    var r := levels[..i] + levels[i + 1..];
    if i == 0 {
      assert r == levels[1..];
      if levels[0].price != q {
      }
    } else {
      assert r[0] == levels[0];
      if levels[0].price != q {
        assert r[1..] == levels[1..][..i - 1] + levels[1..][i..];
        LocateAfterErase(levels[1..], i - 1, q);
      }
    }
  }

  /** Inserting a level at a price no level has leaves the lookup of every other price as it was. */
  lemma {:induction false} LocateAfterInsert(levels: seq<Level>, k: nat, l: Level, q: int)
    requires k <= |levels| && l.price != q
    ensures LevelAt(levels[..k] + [l] + levels[k..], q) == LevelAt(levels, q)
  {
    var r := levels[..k] + [l] + levels[k..];
    if k == 0 {
      assert r[1..] == levels;
    } else {
      assert r[0] == levels[0];
      if levels[0].price != q {
        assert r[1..] == levels[1..][..k - 1] + [l] + levels[1..][k - 1..];
        LocateAfterInsert(levels[1..], k - 1, l, q);
      }
    }
  }

  /** Rewriting the entry at index i without changing its price leaves every lookup pointing there. */
  lemma {:induction false} LocateAfterUpdate(levels: seq<Level>, i: nat, l: Level, q: int)
    requires i < |levels| && l.price == levels[i].price
    ensures Locate(levels[i := l], q) == Locate(levels, q)
  {
    if i > 0 && levels[0].price != q {
      assert levels[i := l][1..] == levels[1..][i - 1 := l];
      LocateAfterUpdate(levels[1..], i - 1, l, q);
    }
  }

  /**
   Adding to a side changes exactly one level: the one at the price grows by the size and by one
   order (starting from an empty level when there was none), every other price keeps its level,
   and the side stays in map order.
   */
  lemma JoinedEffect(levels: seq<Level>, ladder: Ladder, price: int, size: int)
    requires Ordered(levels, ladder)
    ensures Ordered(Joined(levels, ladder, price, size), ladder)
    ensures LevelAt(Joined(levels, ladder, price, size), price)
            == Some(Level(price, Prior(levels, price).size + size, Prior(levels, price).count + 1))
    ensures forall q :: q != price ==> LevelAt(Joined(levels, ladder, price, size), q) == LevelAt(levels, q)
  {
    var r := Joined(levels, ladder, price, size);
    match Locate(levels, price)
    case Some(i) =>
      var l := Level(price, levels[i].size + size, levels[i].count + 1);
      assert r == levels[i := l];
      forall q ensures Locate(r, q) == Locate(levels, q) {
        LocateAfterUpdate(levels, i, l, q);
      }
    case None =>
      var k := Slot(levels, ladder, price);
      var l := Level(price, size, 1);
      assert r == levels[..k] + [l] + levels[k..];
      forall q | q != price ensures LevelAt(r, q) == LevelAt(levels, q) {
        LocateAfterInsert(levels, k, l, q);
      }
      assert r[k] == l;
      forall j | 0 <= j < k ensures r[j].price != price {
        assert r[j] == levels[j];
      }
      assert Locate(r, price) == Some(k);
      forall i, j | 0 <= i < j < |r| ensures Ahead(ladder, r[i].price, r[j].price) {
        if j < k {
          assert r[i] == levels[i] && r[j] == levels[j];
        } else if j == k {
          assert r[i] == levels[i];
        } else if i == k {
          assert r[j] == levels[j - 1];
          if k < |levels| {
            assert levels[k].price != price;
            if j - 1 > k { assert Ahead(ladder, levels[k].price, levels[j - 1].price); }
          }
        } else if i < k {
          assert r[i] == levels[i] && r[j] == levels[j - 1];
        } else {
          assert r[i] == levels[i - 1] && r[j] == levels[j - 1];
        }
      }
  }

  /**
   Withdrawing from a side changes at most the level at the price: with no level there nothing
   changes; otherwise the level loses the size and one order, and is erased iff its size is no
   longer positive. Every other price keeps its level, and the side stays in map order.
   */
  lemma WithdrawnEffect(levels: seq<Level>, ladder: Ladder, price: int, size: int)
    requires Ordered(levels, ladder)
    ensures Ordered(Withdrawn(levels, price, size), ladder)
    ensures LevelAt(levels, price).None? ==> Withdrawn(levels, price, size) == levels
    ensures LevelAt(levels, price).Some? ==>
              var l := LevelAt(levels, price).value;
              LevelAt(Withdrawn(levels, price, size), price)
              == if l.size - size <= 0 then None else Some(Level(price, l.size - size, l.count - 1))
    ensures forall q :: q != price ==> LevelAt(Withdrawn(levels, price, size), q) == LevelAt(levels, q)
  {
    var r := Withdrawn(levels, price, size);
    match Locate(levels, price)
    case Some(i) =>
      var l := levels[i];
      if l.size - size <= 0 {
        assert r == levels[..i] + levels[i + 1..];
        forall q | q != price ensures LevelAt(r, q) == LevelAt(levels, q) {
          LocateAfterErase(levels, i, q);
        }
        forall j | 0 <= j < |r| ensures r[j].price != price {
          if j < i { assert r[j] == levels[j]; } else { assert r[j] == levels[j + 1]; }
        }
        forall a, b | 0 <= a < b < |r| ensures Ahead(ladder, r[a].price, r[b].price) {
          if b < i {
            assert r[a] == levels[a] && r[b] == levels[b];
          } else if a < i {
            assert r[a] == levels[a] && r[b] == levels[b + 1];
          } else {
            assert r[a] == levels[a + 1] && r[b] == levels[b + 1];
          }
        }
      } else {
        var l' := Level(l.price, l.size - size, l.count - 1);
        assert r == levels[i := l'];
        forall q ensures Locate(r, q) == Locate(levels, q) {
          LocateAfterUpdate(levels, i, l', q);
        }
      }
    case None =>
  }

  /** The first n levels in map order: the whole side when it has fewer, none when n <= 0. */
  function Top(levels: seq<Level>, n: int): (r: seq<Level>)
    ensures |r| == if n <= 0 then 0 else Min(n, |levels|)
    ensures forall i :: 0 <= i < |r| ==> r[i] == levels[i]
  {
    if n <= 0 then [] else levels[..Min(n, |levels|)]
  }

  /**
   The first n levels of a side hold min(n, number of levels) entries, strictly ordered
   best-first, and every level left out ranks behind every level returned.
   */
  lemma TopIsBestFirst(levels: seq<Level>, ladder: Ladder, n: int)
    requires Ordered(levels, ladder)
    ensures |Top(levels, n)| == if n <= 0 then 0 else Min(n, |levels|)
    ensures Ordered(Top(levels, n), ladder)
    ensures forall i, j :: 0 <= i < |Top(levels, n)| <= j < |levels| ==>
              Ahead(ladder, Top(levels, n)[i].price, levels[j].price)
  {
  }

  /**
   Walks the ordered level map from its first entry, taking at most n levels: the counted
   iterator loop of the book's level queries (reconstruction.cpp:95-100, 104-109).
   */
  method TopLevels(levels: seq<Level>, n: int) returns (r: seq<Level>)
    ensures r == Top(levels, n)
  {
    r := [];
    var i := 0;
    while i < n && i < |levels|
      invariant 0 <= i <= |levels|
      invariant i == 0 || i <= n
      invariant r == levels[..i]
    {
      r := r + [levels[i]];
      i := i + 1;
    }
  }
}
