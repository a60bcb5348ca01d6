/**
 The market-by-order to market-by-price reconstructor (reconstruction.cpp:170-404).

 Records are fed one at a time. A reset, add, modify or cancel applies its book operation and
 emits one output row carrying the top ten levels of both sides, even when the operation finds
 nothing to change; a trade is queued until the cancel that closes it arrives; fills, trades
 with side 'N' and unknown actions are ignored. `Step` is what one record does to the engine's
 value, and the class `Reconstructor` does it in place.
 */
module Reconstruction {
  import opened Wrappers
  import opened Levels
  import opened OrderBooks

  /** A decoded input record: only the fields the reconstructor inspects or forwards. */
  datatype MboRecord = MboRecord(action: char, side: char, price: int, size: int, orderId: int, sequence: int)

  /** A trade waiting for its cancel; side is the book side the trade takes liquidity from. */
  datatype PendingTrade = PendingTrade(side: char, price: int, size: int, orderId: int, sequence: int)

  /** One output row: its index, the effective action, side and depth, and the top levels. */
  datatype Row = Row(
    index: int, action: char, side: char, depth: int, price: int, size: int,
    orderId: int, sequence: int, bids: seq<Level>, asks: seq<Level>)

  /** The reconstructor's value: the book, the queued trades, the row counter and the rows written. */
  datatype Engine = Engine(book: Book, pending: seq<PendingTrade>, rowIndex: int, rows: seq<Row>)

  /** How many levels of each side a row reports, and the window the depth is looked up in. */
  const TopDepth := 10

  /** A freshly constructed reconstructor. */
  const Start := Engine(EmptyBook, [], 0, [])

  /** The book side a trade affects: the opposite of the aggressor's reported side (reconstruction.cpp:290). */
  function Affected(side: char): (r: char)
    ensures r == 'A' || r == 'B'
    ensures r == 'A' <==> side == 'B'
  {
    if side == 'B' then 'A' else 'B'
  }

  /** The index of the first level with the price, or 0 when there is none. */
  function Position(levels: seq<Level>, price: int): int
  {
    match Locate(levels, price)
    case Some(i) => i
    case None => 0
  }

  /** The depth reported for a price: its position among the first ten levels of a side. */
  function Depth(levels: seq<Level>, price: int): (d: int)
    ensures 0 <= d < TopDepth
  {
    Position(Top(levels, TopDepth), price)
  }

  /** The depth for a record's side: bids for 'B', asks for 'A', 0 for any other side. */
  function SideDepth(b: Book, side: char, price: int): (d: int)
    ensures 0 <= d < TopDepth
    ensures side != 'B' && side != 'A' ==> d == 0
  {
    if side == 'B' then Depth(b.bids, price)
    else if side == 'A' then Depth(b.asks, price)
    else 0
  }

  /**
   The index of the first queued trade with the sequence number, if any: the pending-trade scan,
   which breaks on its first match. It has the same first-match meaning as `Levels.Locate`, over
   queued trades and their sequence numbers instead of levels and their prices.
   */
  function MatchingTrade(pending: seq<PendingTrade>, sequence: int): (r: Option<nat>)
    ensures r.Some? ==> r.value < |pending| && pending[r.value].sequence == sequence
    ensures r.Some? ==> forall j :: 0 <= j < r.value ==> pending[j].sequence != sequence
    ensures r.None? ==> forall j :: 0 <= j < |pending| ==> pending[j].sequence != sequence
  {
    if pending == [] then None
    else if pending[0].sequence == sequence then Some(0)
    else
      match MatchingTrade(pending[1..], sequence)
      case None => None
      case Some(k) => Some(k + 1)
  }

  /** The row written now: numbered by the row counter, with the current top ten levels of each side. */
  function NewRow(
    e: Engine, action: char, side: char, depth: int, price: int, size: int, orderId: int, sequence: int): Row
  {
    Row(e.rowIndex, action, side, depth, price, size, orderId, sequence,
        Top(e.book.bids, TopDepth), Top(e.book.asks, TopDepth))
  }

  /** Writes a row and advances the row counter (reconstruction.cpp:223-256). */
  function Emit(
    e: Engine, action: char, side: char, depth: int, price: int, size: int, orderId: int, sequence: int): Engine
  {
    e.(rows := e.rows + [NewRow(e, action, side, depth, price, size, orderId, sequence)],
       rowIndex := e.rowIndex + 1)
  }

  /** What one record does to the reconstructor (reconstruction.cpp:258-404). */
  function Step(e: Engine, rec: MboRecord): Engine
  {
    if rec.action == 'R' then
      Emit(e.(book := EmptyBook), 'R', 'N', 0, rec.price, rec.size, rec.orderId, rec.sequence)
    else if rec.action == 'T' then
      if rec.side == 'N' then e
      else e.(pending := e.pending + [PendingTrade(Affected(rec.side), rec.price, rec.size, rec.orderId, rec.sequence)])
    else if rec.action == 'F' then e
    else if rec.action == 'C' then
      match MatchingTrade(e.pending, rec.sequence)
      case Some(i) =>
        var t := e.pending[i];
        var b := CancelSpec(e.book, rec.orderId);
        var depth := Depth(if t.side == 'B' then b.bids else b.asks, t.price);
        var closed := Engine(b, e.pending[..i] + e.pending[i + 1..], e.rowIndex, e.rows);
        Emit(closed, 'T', t.side, depth, t.price, t.size, rec.orderId, rec.sequence)
      case None =>
        var depth := SideDepth(e.book, rec.side, rec.price);
        Emit(e.(book := CancelSpec(e.book, rec.orderId)), 'C', rec.side, depth, rec.price, rec.size, rec.orderId, rec.sequence)
    else if rec.action == 'A' then
      var b := AddSpec(e.book, rec.orderId, rec.side, rec.price, rec.size);
      Emit(e.(book := b), 'A', rec.side, SideDepth(b, rec.side, rec.price), rec.price, rec.size, rec.orderId, rec.sequence)
    else if rec.action == 'M' then
      var b := ModifySpec(e.book, rec.orderId, rec.price, rec.size);
      Emit(e.(book := b), 'M', rec.side, 0, rec.price, rec.size, rec.orderId, rec.sequence)
    else e
  }

  /** The records of a file, processed in order (reconstruction.cpp:416-427). */
  function Run(e: Engine, recs: seq<MboRecord>): Engine
    decreases |recs|
  {
    if recs == [] then e else Run(Step(e, recs[0]), recs[1..])
  }

  /**
   The depth loop: the index of the first of the given levels with the price, or 0 when none has
   it (reconstruction.cpp:317-334, 346-363, 375-392).
   */
  method ScanDepth(top: seq<Level>, price: int) returns (depth: int)
    ensures depth == Position(top, price)
    ensures (exists j :: 0 <= j < |top| && top[j].price == price) ==>
              && 0 <= depth < |top| && top[depth].price == price
              && forall j :: 0 <= j < depth ==> top[j].price != price
    ensures (forall j :: 0 <= j < |top| ==> top[j].price != price) ==> depth == 0
  {
    depth := 0;
    var i := 0;
    while i < |top|
      invariant 0 <= i <= |top|
      invariant forall j :: 0 <= j < i ==> top[j].price != price
      invariant depth == 0
    {
      if top[i].price == price {
        depth := i;
        break;
      }
      i := i + 1;
    }
  }

  /** The reconstructor: it owns the book, the queued trades and the row counter; rows go to a ghost log. */
  class Reconstructor {
    const book: OrderBook
    var pending: seq<PendingTrade>
    var rowIndex: int
    ghost var rows: seq<Row>

    ghost function State(): Engine
      reads this, book
    {
      Engine(book.Model(), pending, rowIndex, rows)
    }

    constructor ()
      ensures State() == Start
      ensures fresh(book)
    {
      book := new OrderBook();
      pending := [];
      rowIndex := 0;
      rows := [];
    }

    /** Writes one row from the current book and advances the row counter. */
    method WriteRow(action: char, side: char, depth: int, price: int, size: int, orderId: int, sequence: int)
      modifies this
      ensures State() == Emit(old(State()), action, side, depth, price, size, orderId, sequence)
    {
      var bids := book.GetBids(TopDepth);
      var asks := book.GetAsks(TopDepth);
      rows := rows + [Row(rowIndex, action, side, depth, price, size, orderId, sequence, bids, asks)];
      rowIndex := rowIndex + 1;
    }

    /** The depth of a price among the first ten bid levels. */
    method BidDepth(price: int) returns (depth: int)
      ensures depth == Depth(book.bids, price)
    {
      var bids := book.GetBids(TopDepth);
      depth := ScanDepth(bids, price);
    }

    /** The depth of a price among the first ten ask levels. */
    method AskDepth(price: int) returns (depth: int)
      ensures depth == Depth(book.asks, price)
    {
      var asks := book.GetAsks(TopDepth);
      depth := ScanDepth(asks, price);
    }

    /** Processes one record. */
    method ProcessRecord(rec: MboRecord)
      modifies this, book
      ensures State() == Step(old(State()), rec)
    {
      if rec.action == 'R' {
        book.Clear();
        WriteRow('R', 'N', 0, rec.price, rec.size, rec.orderId, rec.sequence);
        return;
      }
      if rec.action == 'T' {
        if rec.side == 'N' {
          return;
        }
        var side := if rec.side == 'B' then 'A' else 'B';
        pending := pending + [PendingTrade(side, rec.price, rec.size, rec.orderId, rec.sequence)];
        return;
      }
      if rec.action == 'F' {
        return;
      }
      if rec.action == 'C' {
        var i := 0;
        while i < |pending|
          invariant 0 <= i <= |pending|
          invariant forall j :: 0 <= j < i ==> pending[j].sequence != rec.sequence
          invariant State() == old(State())
        {
          if pending[i].sequence == rec.sequence {
            var t := pending[i];
            book.CancelOrder(rec.orderId);
            var depth;
            if t.side == 'B' {
              depth := BidDepth(t.price);
            } else {
              depth := AskDepth(t.price);
            }
            WriteRow('T', t.side, depth, t.price, t.size, rec.orderId, rec.sequence);
            pending := pending[..i] + pending[i + 1..];
            return;
          }
          i := i + 1;
        }
        var depth := 0;
        if rec.side == 'B' {
          depth := BidDepth(rec.price);
        } else if rec.side == 'A' {
          depth := AskDepth(rec.price);
        }
        book.CancelOrder(rec.orderId);
        WriteRow('C', rec.side, depth, rec.price, rec.size, rec.orderId, rec.sequence);
        return;
      }
      if rec.action == 'A' {
        book.AddOrder(rec.orderId, rec.side, rec.price, rec.size);
        var depth := 0;
        if rec.side == 'B' {
          depth := BidDepth(rec.price);
        } else if rec.side == 'A' {
          depth := AskDepth(rec.price);
        }
        WriteRow('A', rec.side, depth, rec.price, rec.size, rec.orderId, rec.sequence);
        return;
      }
      if rec.action == 'M' {
        book.ModifyOrder(rec.orderId, rec.price, rec.size);
        WriteRow('M', rec.side, 0, rec.price, rec.size, rec.orderId, rec.sequence);
        return;
      }
    }

    /** Processes the records of a file in order. */
    method ProcessAll(recs: seq<MboRecord>)
      modifies this, book
      ensures State() == Run(old(State()), recs)
    {
      var k := 0;
      while k < |recs|
        invariant 0 <= k <= |recs|
        invariant Run(old(State()), recs) == Run(State(), recs[k..])
      {
        assert recs[k..][1..] == recs[k + 1..];
        ProcessRecord(recs[k]);
        k := k + 1;
      }
    }
  }
}
