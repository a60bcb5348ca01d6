/**
 What the reconstructor promises over one record and over a whole file: one row per reset,
 add, modify or cancel record with a row counter that numbers them, the trade queue's bookkeeping, the
 reconciliation of cancels with queued trades, depths inside the reported window, rows whose
 levels are in map order, and a book that stays conserved.
 */
module Properties {
  import opened Wrappers
  import opened Levels
  import opened OrderBooks
  import opened Conservation
  import opened Reconstruction

  /** The actions that write a row: reset, add, modify and cancel. */
  predicate Emits(rec: MboRecord)
  {
    rec.action == 'R' || rec.action == 'A' || rec.action == 'M' || rec.action == 'C'
  }

  /** The number of row-writing records in a sequence of records. */
  function Emitting(recs: seq<MboRecord>): nat
  {
    if recs == [] then 0 else (if Emits(recs[0]) then 1 else 0) + Emitting(recs[1..])
  }

  /** The last row written. */
  function LastRow(e: Engine): Row
    requires e.rows != []
  {
    e.rows[|e.rows| - 1]
  }

  /**
   A record writes exactly one row if it is a reset, add, modify or cancel and none otherwise;
   the rows already written are kept, the counter advances with the rows and numbers the new one,
   and the row is tagged with the record's action, except that a cancel closing a queued trade
   writes a 'T' row.
   */
  lemma StepRowCount(e: Engine, rec: MboRecord)
    ensures |Step(e, rec).rows| == |e.rows| + (if Emits(rec) then 1 else 0)
    ensures Step(e, rec).rowIndex == e.rowIndex + (if Emits(rec) then 1 else 0)
    ensures Step(e, rec).rows[..|e.rows|] == e.rows
    ensures Emits(rec) ==> LastRow(Step(e, rec)).index == e.rowIndex
    ensures Emits(rec) ==>
      LastRow(Step(e, rec)).action
      == if rec.action == 'C' && MatchingTrade(e.pending, rec.sequence).Some? then 'T' else rec.action
  {
  }

  /** Over a file, the rows written are the rows before plus one per row-writing record, in order. */
  lemma {:induction false} RunRowCount(e: Engine, recs: seq<MboRecord>)
    ensures |Run(e, recs).rows| == |e.rows| + Emitting(recs)
    ensures Run(e, recs).rowIndex == e.rowIndex + Emitting(recs)
    ensures Run(e, recs).rows[..|e.rows|] == e.rows
    decreases |recs|
  {
    if recs != [] {
      var e' := Step(e, recs[0]);
      StepRowCount(e, recs[0]);
      RunRowCount(e', recs[1..]);
      assert Run(e, recs) == Run(e', recs[1..]);
      assert Run(e, recs).rows[..|e.rows|] == Run(e', recs[1..]).rows[..|e'.rows|][..|e.rows|];
    }
  }

  /** The row counter equals the number of rows written, and row i carries index i. */
  ghost predicate Numbered(e: Engine)
  {
    e.rowIndex == |e.rows| && forall i :: 0 <= i < |e.rows| ==> e.rows[i].index == i
  }

  /** After any file the fresh reconstructor has numbered its rows 0, 1, 2, ... by the row counter. */
  lemma {:induction false} RunNumbersRows(e: Engine, recs: seq<MboRecord>)
    requires Numbered(e)
    ensures Numbered(Run(e, recs))
    decreases |recs|
  {
    if recs != [] {
      var e' := Step(e, recs[0]);
      StepRowCount(e, recs[0]);
      assert Numbered(e') by {
        forall i | 0 <= i < |e'.rows| ensures e'.rows[i].index == i {
          if i < |e.rows| {
            assert e'.rows[i] == e'.rows[..|e.rows|][i];
          }
        }
      }
      RunNumbersRows(e', recs[1..]);
    }
  }

  /**
   A trade whose side is not 'N' queues one pending trade on the opposite book side ('A' for a
   'B' aggressor, 'B' for anything else) and changes nothing else; it writes no row.
   */
  lemma TradeQueues(e: Engine, rec: MboRecord)
    requires rec.action == 'T' && rec.side != 'N'
    ensures Step(e, rec).pending == e.pending + [PendingTrade(Affected(rec.side), rec.price, rec.size, rec.orderId, rec.sequence)]
    ensures Step(e, rec).pending[|e.pending|].side == (if rec.side == 'B' then 'A' else 'B')
    ensures Step(e, rec).book == e.book && Step(e, rec).rows == e.rows && Step(e, rec).rowIndex == e.rowIndex
  {
  }

  /** Fills, trades with side 'N' and unknown actions leave the reconstructor as it was. */
  lemma IgnoredRecords(e: Engine, rec: MboRecord)
    requires rec.action == 'F' || (rec.action == 'T' && rec.side == 'N') || !(Emits(rec) || rec.action == 'T')
    ensures Step(e, rec) == e
  {
  }

  /**
   A reset empties the book and writes a row tagged ('R', 'N', depth 0) with no levels on either
   side; the queued trades are kept.
   */
  lemma ResetClears(e: Engine, rec: MboRecord)
    requires rec.action == 'R'
    ensures Step(e, rec).book == EmptyBook && Step(e, rec).pending == e.pending
    ensures var r := LastRow(Step(e, rec));
      r.action == 'R' && r.side == 'N' && r.depth == 0 && r.bids == [] && r.asks == []
  {
  }

  /**
   An add applies the add to the book, keeps the queue, and writes a row tagged 'A' with the
   record's side, price and size, its depth read from the book after the add.
   */
  lemma AddWritesRow(e: Engine, rec: MboRecord)
    requires rec.action == 'A'
    ensures var s := Step(e, rec);
      && s.pending == e.pending
      && s.book == AddSpec(e.book, rec.orderId, rec.side, rec.price, rec.size)
      && LastRow(s) == Row(e.rowIndex, 'A', rec.side, SideDepth(s.book, rec.side, rec.price),
                           rec.price, rec.size, rec.orderId, rec.sequence,
                           Top(s.book.bids, TopDepth), Top(s.book.asks, TopDepth))
  {
  }

  /**
   A modify leaves the book exactly as a cancel of the id would, keeps the queue, and writes a
   row tagged 'M' with the record's side, price and size and depth 0.
   */
  lemma ModifyWritesRow(e: Engine, rec: MboRecord)
    requires rec.action == 'M'
    ensures var s := Step(e, rec);
      && s.pending == e.pending
      && s.book == CancelSpec(e.book, rec.orderId)
      && LastRow(s) == Row(e.rowIndex, 'M', rec.side, 0, rec.price, rec.size, rec.orderId, rec.sequence,
                           Top(s.book.bids, TopDepth), Top(s.book.asks, TopDepth))
  {
    ModifyIsCancel(e.book, rec.orderId, rec.price, rec.size);
  }

  /**
   A cancel whose sequence number matches a queued trade closes the first such trade: that entry
   alone leaves the queue, the order is cancelled, and the row is tagged 'T' with the trade's
   side, price and size, its depth read from the book after the cancel.
   */
  lemma CancelClosesTrade(e: Engine, rec: MboRecord, i: nat)
    requires rec.action == 'C'
    requires i < |e.pending| && e.pending[i].sequence == rec.sequence
    requires forall j :: 0 <= j < i ==> e.pending[j].sequence != rec.sequence
    ensures var s := Step(e, rec);
      var t := e.pending[i];
      && s.pending == e.pending[..i] + e.pending[i + 1..]
      && s.book == CancelSpec(e.book, rec.orderId)
      && LastRow(s) == Row(e.rowIndex, 'T', t.side, Depth(if t.side == 'B' then s.book.bids else s.book.asks, t.price),
                           t.price, t.size, rec.orderId, rec.sequence,
                           Top(s.book.bids, TopDepth), Top(s.book.asks, TopDepth))
  {
  }

  /**
   A cancel that matches no queued trade is an ordinary cancel: the queue is kept, the order is
   cancelled, and the row is tagged 'C' with the record's side, its depth read from the book
   before the cancel.
   */
  lemma CancelIsOrdinary(e: Engine, rec: MboRecord)
    requires rec.action == 'C'
    requires forall j :: 0 <= j < |e.pending| ==> e.pending[j].sequence != rec.sequence
    ensures var s := Step(e, rec);
      && s.pending == e.pending
      && s.book == CancelSpec(e.book, rec.orderId)
      && LastRow(s) == Row(e.rowIndex, 'C', rec.side, SideDepth(e.book, rec.side, rec.price),
                           rec.price, rec.size, rec.orderId, rec.sequence,
                           Top(s.book.bids, TopDepth), Top(s.book.asks, TopDepth))
  {
  }

  /**
   A trade followed by the cancel with its sequence number, when no trade with that number was
   queued before, writes one 'T' row for the opposite side at the trade's price and size and
   leaves the queue as it was.
   */
  lemma TradeThenCancel(e: Engine, t: MboRecord, c: MboRecord)
    requires t.action == 'T' && t.side != 'N' && c.action == 'C' && c.sequence == t.sequence
    requires forall j :: 0 <= j < |e.pending| ==> e.pending[j].sequence != t.sequence
    ensures var s := Run(e, [t, c]);
      && s.pending == e.pending
      && s.book == CancelSpec(e.book, c.orderId)
      && |s.rows| == |e.rows| + 1
      && LastRow(s).action == 'T' && LastRow(s).side == Affected(t.side)
      && LastRow(s).price == t.price && LastRow(s).size == t.size
  {
    var e1 := Step(e, t);
    TradeQueues(e, t);
    var n := |e.pending|;
    CancelClosesTrade(e1, c, n);
    assert e1.pending[..n] + e1.pending[n + 1..] == e.pending;
    assert [t, c][1..] == [c] && [c][1..] == [];
    assert Run(e, [t, c]) == Run(e1, [c]) == Step(e1, c);
  }

  /** The depth is the first index of the price among the first ten levels, or 0: always within 0..9. */
  lemma DepthInWindow(levels: seq<Level>, price: int)
    ensures 0 <= Depth(levels, price) < TopDepth
    ensures var top := Top(levels, TopDepth);
      (exists j :: 0 <= j < |top| && top[j].price == price) ==>
        && Depth(levels, price) < |levels| && levels[Depth(levels, price)].price == price
        && forall j :: 0 <= j < Depth(levels, price) ==> levels[j].price != price
    ensures (forall j :: 0 <= j < |levels| && j < TopDepth ==> levels[j].price != price) ==> Depth(levels, price) == 0
  {
  }

  /** Every queued trade is for the bid or the ask side. */
  ghost predicate PendingSides(e: Engine)
  {
    forall i :: 0 <= i < |e.pending| ==> e.pending[i].side == 'B' || e.pending[i].side == 'A'
  }

  /** Every row holds at most ten levels per side, in map order, and a depth within 0..9. */
  ghost predicate RowsInWindow(e: Engine)
  {
    forall i :: 0 <= i < |e.rows| ==>
      && |e.rows[i].bids| <= TopDepth && Ordered(e.rows[i].bids, Bids)
      && |e.rows[i].asks| <= TopDepth && Ordered(e.rows[i].asks, Asks)
      && 0 <= e.rows[i].depth < TopDepth
  }

  /** The reconstructor invariant: a conserved book, numbered rows, well-formed rows and queued sides. */
  ghost predicate Healthy(e: Engine)
  {
    Consistent(e.book) && Numbered(e) && RowsInWindow(e) && PendingSides(e)
  }

  /** The fresh reconstructor is healthy. */
  lemma StartHealthy()
    ensures Healthy(Start)
  {
    EmptyBookConsistent();
  }

  /** An add introduces a fresh order id with a positive size. */
  predicate Admissible(e: Engine, rec: MboRecord)
  {
    rec.action == 'A' ==> rec.orderId !in e.book.orders && rec.size > 0
  }

  /** Every add of the file is admissible at the point it is processed. */
  ghost predicate AdmissibleRun(e: Engine, recs: seq<MboRecord>)
    decreases |recs|
  {
    recs != [] ==> Admissible(e, recs[0]) && AdmissibleRun(Step(e, recs[0]), recs[1..])
  }

  /** Each book operation a record performs keeps the book consistent. */
  lemma StepKeepsBook(e: Engine, rec: MboRecord)
    requires Consistent(e.book) && Admissible(e, rec)
    ensures Consistent(Step(e, rec).book)
  {
    if rec.action == 'R' {
      EmptyBookConsistent();
    } else if rec.action == 'C' {
      CancelPreservesConsistency(e.book, rec.orderId);
    } else if rec.action == 'A' {
      AddPreservesConsistency(e.book, rec.orderId, rec.side, rec.price, rec.size);
    } else if rec.action == 'M' {
      ModifyPreservesConsistency(e.book, rec.orderId, rec.price, rec.size);
    }
  }

  /** A row written from a book in map order holds at most ten levels per side, in map order, and a depth in 0..9. */
  lemma LastRowInWindow(e: Engine, rec: MboRecord)
    requires Emits(rec) && Sorted(Step(e, rec).book)
    ensures var r := LastRow(Step(e, rec));
      && |r.bids| <= TopDepth && Ordered(r.bids, Bids)
      && |r.asks| <= TopDepth && Ordered(r.asks, Asks)
      && 0 <= r.depth < TopDepth
  {
    var s := Step(e, rec);
    forall l, p ensures 0 <= Depth(l, p) < TopDepth {
      DepthInWindow(l, p);
    }
    TopIsBestFirst(s.book.bids, Bids, TopDepth);
    TopIsBestFirst(s.book.asks, Asks, TopDepth);
    if rec.action == 'C' {
      match MatchingTrade(e.pending, rec.sequence)
      case Some(i) =>
      case None =>
    }
  }

  /** One record keeps the rows numbered and in the window, given a book in map order afterwards. */
  lemma StepKeepsRows(e: Engine, rec: MboRecord)
    requires Numbered(e) && RowsInWindow(e) && Sorted(Step(e, rec).book)
    ensures Numbered(Step(e, rec)) && RowsInWindow(Step(e, rec))
  {
    var s := Step(e, rec);
    StepRowCount(e, rec);
    forall i | 0 <= i < |e.rows| ensures s.rows[i] == e.rows[i] {
      assert s.rows[i] == s.rows[..|e.rows|][i];
    }
    if Emits(rec) {
      LastRowInWindow(e, rec);
    }
  }

  /** One record queues only bid or ask trades. */
  lemma StepKeepsPendingSides(e: Engine, rec: MboRecord)
    requires PendingSides(e)
    ensures PendingSides(Step(e, rec))
  {
  }

  /** Processing one admissible record keeps the reconstructor healthy. */
  lemma StepPreservesHealth(e: Engine, rec: MboRecord)
    requires Healthy(e) && Admissible(e, rec)
    ensures Healthy(Step(e, rec))
  {
    StepKeepsBook(e, rec);
    StepKeepsRows(e, rec);
    StepKeepsPendingSides(e, rec);
  }

  /** A file whose adds are all admissible keeps the reconstructor healthy throughout. */
  lemma {:induction false} RunPreservesHealth(e: Engine, recs: seq<MboRecord>)
    requires Healthy(e) && AdmissibleRun(e, recs)
    ensures Healthy(Run(e, recs))
    decreases |recs|
  {
    if recs != [] {
      StepPreservesHealth(e, recs[0]);
      RunPreservesHealth(Step(e, recs[0]), recs[1..]);
    }
  }

  /** The records of a file without its fills. */
  function WithoutFills(recs: seq<MboRecord>): (r: seq<MboRecord>)
    ensures |r| <= |recs|
    ensures forall i :: 0 <= i < |r| ==> r[i].action != 'F'
  {
    if recs == [] then []
    else if recs[0].action == 'F' then WithoutFills(recs[1..])
    else [recs[0]] + WithoutFills(recs[1..])
  }

  /** Fills are transparent: a file processed with or without its fills ends in the same state. */
  lemma {:induction false} FillsTransparent(e: Engine, recs: seq<MboRecord>)
    ensures Run(e, WithoutFills(recs)) == Run(e, recs)
    decreases |recs|
  {
    if recs != [] {
      FillsTransparent(Step(e, recs[0]), recs[1..]);
      if recs[0].action != 'F' {
        var w := WithoutFills(recs);
        assert w[0] == recs[0] && w[1..] == WithoutFills(recs[1..]);
      }
    }
  }

  /**
   Reset, a bid at 10.00 (1000 ticks), an ask at 11.00 and the cancel of the bid: four rows, the
   last one a 'C' row with an empty bid side and the ask 11.00 x 100 from one order.
   */
  lemma ResetAddAddCancelScenario()
    ensures var recs := [
        MboRecord('R', 'N', 0, 0, 0, 0),
        MboRecord('A', 'B', 1000, 100, 1001, 851012),
        MboRecord('A', 'A', 1100, 100, 1002, 851013),
        MboRecord('C', 'B', 1000, 100, 1001, 851022)];
      var s := Run(Start, recs);
      && |s.rows| == 4
      && LastRow(s).action == 'C' && LastRow(s).side == 'B' && LastRow(s).depth == 0
      && LastRow(s).bids == [] && LastRow(s).asks == [Level(1100, 100, 1)]
  {
  }
}
