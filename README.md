# Order book reconstruction from market-by-order events

This project models the core of `quant_dev_trial/reconstruction.cpp` in Dafny. That program reads
a market-by-order (MBO) feed for one instrument and writes market-by-price (MBP) rows. Each row is
a snapshot of the top ten price levels on each side. One row is written for every reset, add,
modify or cancel record, even a cancel or modify of an unknown id that changes nothing. Trades are
held back until the cancel that closes them, which writes the trade's row; fills write none.

The model has two parts.

- **The order book** (`OrderBooks`, built on `Levels`).
  - A bid side and an ask side of aggregated price levels (price, total size, number of orders),
    plus an index from order id to the resting order.
  - In the source each side is a `std::map`: bids by descending price, asks by ascending price.
    Here each side is the sequence of its map entries in that order, kept strictly ordered.
  - The book's value and what each operation does to it are pure functions: `AddSpec`,
    `CancelSpec`, `ModifySpec` and `Top`.
  - The class `OrderBook` performs these operations in place on its fields. Each method is proved
    to move its state exactly as the matching function says.
- **The reconstructor** (`Reconstruction`).
  - A state machine over the action code of each record: `R` reset, `A` add, `C` cancel,
    `M` modify, `T` trade, `F` fill.
  - It owns the book, a queue of pending trades and a row counter.
  - A trade is queued against the opposite book side. The cancel with the same sequence number
    closes it and writes a `T` row.
  - The depth written into a row is the position of the price among the first ten levels of the
    side, or 0 when the price is not there.
  - `Step` is one record's effect on the reconstructor's value, and `Run` is a whole file's.
  - The class `Reconstructor` processes records in place. Its output rows go to a ghost log
    instead of a file.

Proved about the model:

- the effects of add, cancel and modify on each level and on the order index;
- modify behaves exactly like cancel;
- the book stays in map order;
- size and count are conserved: each level is the sum of the live orders on its side at its price,
  and a level exists exactly while such an order is live. This holds for adds of fresh ids with
  positive sizes, interleaved with cancels, modifies and resets;
- exactly one row per reset, add, modify or cancel, and none for anything else, with the row
  counter numbering the rows;
- trade-queue bookkeeping and cancel reconciliation;
- depths always lie in 0..9, and every row's levels are in map order;
- fills are transparent;
- the reset / add bid / add ask / cancel bid scenario of `quant_dev_trial/test_suite.cpp`.

The model follows the code as written, in particular:

- **Modify removes the order.** The code of `modifyOrder` (reconstruction.cpp:80-86) shows the
  intent to re-add the order with its old side at the new price and size (lines 82-84). But it
  cancels first (line 81) and only then looks the id up. That lookup always fails, so the re-add
  never runs and the order simply disappears. `ModifySpec` models the code as written, and
  `ModifyIsCancel` proves it equals `CancelSpec`.
- **A reset keeps queued trades.** A reset clears the book but not the pending trades
  (reconstruction.cpp:260-264).

## Model

| member | source | states |
|---|---|---|
| Levels.Joined | quant_dev_trial/reconstruction.cpp:41-48 | definition of adding to a side; properties in Levels.JoinedEffect |
| Levels.Withdrawn | quant_dev_trial/reconstruction.cpp:57-75 | definition of withdrawing from a side; properties in Levels.WithdrawnEffect |
| Levels.Top | quant_dev_trial/reconstruction.cpp:94-110 | the first n levels: min(n, number of levels) of them (none when n <= 0), each equal to the level at the same position; further properties in Levels.TopIsBestFirst |
| OrderBooks.AddSpec | quant_dev_trial/reconstruction.cpp:38-50 | definition of addOrder; properties in OrderBooks.AddOrderEffect and Conservation.AddPreservesConsistency |
| OrderBooks.CancelSpec | quant_dev_trial/reconstruction.cpp:52-78 | definition of cancelOrder; properties in OrderBooks.CancelOrderEffect and Conservation.CancelPreservesConsistency |
| OrderBooks.ModifySpec | quant_dev_trial/reconstruction.cpp:80-86 | definition of modifyOrder as written; properties in OrderBooks.ModifyIsCancel |
| Levels.Locate | quant_dev_trial/reconstruction.cpp:57-58 | a price lookup finds the first level with that price, or reports that no level has it |
| Levels.Slot | quant_dev_trial/reconstruction.cpp:33-34 | a new price goes after every level that ranks ahead of it in map order and before every other |
| Levels.LocateAfterErase | quant_dev_trial/reconstruction.cpp:62-64 | erasing one level leaves the lookup of every other price unchanged |
| Levels.LocateAfterInsert | quant_dev_trial/reconstruction.cpp:41-43 | inserting a new level leaves the lookup of every other price unchanged |
| Levels.LocateAfterUpdate | quant_dev_trial/reconstruction.cpp:59-60 | updating a level in place keeps every lookup pointing where it did |
| Levels.JoinedEffect | quant_dev_trial/reconstruction.cpp:40-48 | adding to a side grows the level at the price by the size and one order, starting from an empty level if there was none; every other price keeps its level; map order is kept |
| Levels.WithdrawnEffect | quant_dev_trial/reconstruction.cpp:56-75 | withdrawing from a side takes the size and one order off the level at the price and erases it iff the remaining size is <= 0; nothing happens if no level has the price; every other level is kept; map order is kept |
| Levels.TopIsBestFirst | quant_dev_trial/reconstruction.cpp:94-110 | the first n levels hold min(n, number of levels) entries, strictly best-first, each ahead of every level left out |
| Levels.TopLevels | quant_dev_trial/reconstruction.cpp:94-101 | the counted iterator loop returns exactly the first n levels in map order |
| OrderBooks.AddOrderEffect | quant_dev_trial/reconstruction.cpp:38-50 | add (over)writes only the id's index entry; a 'B' (or 'A') order changes only the bid (or ask) level at its price, by its size and one order; any other side changes no level; map order is kept |
| OrderBooks.CancelOrderEffect | quant_dev_trial/reconstruction.cpp:52-78 | cancelling an unknown id changes nothing; cancelling a live order removes only its index entry and takes exactly its size and one order off its side's level, erasing the level iff the remaining size is <= 0; when its side has no level at its price, no level changes; nothing else changes |
| OrderBooks.ModifyIsCancel | quant_dev_trial/reconstruction.cpp:80-86 | modify yields exactly the book and index of cancel, and the id is no longer live |
| OrderBooks.OrderBook.constructor | quant_dev_trial/reconstruction.cpp:31-35 | a new book has no levels and no orders |
| OrderBooks.OrderBook.AddOrder | quant_dev_trial/reconstruction.cpp:38-50 | the fields move exactly as AddSpec says |
| OrderBooks.OrderBook.CancelOrder | quant_dev_trial/reconstruction.cpp:52-78 | the fields move exactly as CancelSpec says, with an early return for an unknown id |
| OrderBooks.OrderBook.ModifyOrder | quant_dev_trial/reconstruction.cpp:80-86 | the fields move as ModifySpec says, which equals CancelSpec, and the id is not live afterwards |
| OrderBooks.OrderBook.Clear | quant_dev_trial/reconstruction.cpp:88-92 | all three structures become empty |
| OrderBooks.OrderBook.GetBids | quant_dev_trial/reconstruction.cpp:94-101 | returns the first n bid levels in map order and changes nothing |
| OrderBooks.OrderBook.GetAsks | quant_dev_trial/reconstruction.cpp:103-110 | returns the first n ask levels in map order and changes nothing |
| Conservation.TallyWithout | quant_dev_trial/reconstruction.cpp:33-35 | the sums over the live orders split into one order's contribution plus the rest |
| Conservation.TallyAgree | quant_dev_trial/reconstruction.cpp:35 | sums depend only on the index entries of the listed ids |
| Conservation.TallySign | quant_dev_trial/reconstruction.cpp:33-35 | with positive order sizes, the total size is positive exactly when the order count is |
| Conservation.TallyWitness | quant_dev_trial/reconstruction.cpp:33-35 | a positive order count comes from some live order on that side at that price |
| Conservation.TallyCountsListed | quant_dev_trial/reconstruction.cpp:33-35 | a live order on a side at a price makes the order count there positive |
| Conservation.EmptyBookConsistent | quant_dev_trial/reconstruction.cpp:88-92 | the empty book, as clear leaves it, satisfies the conservation invariant |
| Conservation.JoinedConserves | quant_dev_trial/reconstruction.cpp:40-48 | after an add, each level of the order's side is the sum over the live orders including the new one |
| Conservation.WithdrawnConserves | quant_dev_trial/reconstruction.cpp:56-75 | after a cancel, each level of the order's side is the sum over the remaining live orders |
| Conservation.EnumeratesAppend | quant_dev_trial/reconstruction.cpp:39 | a fresh id written to the index joins the enumeration of live ids |
| Conservation.TallyAppend | quant_dev_trial/reconstruction.cpp:39 | a fresh live order adds exactly its own size and count to the sums |
| Conservation.AddConserves | quant_dev_trial/reconstruction.cpp:38-50 | an add of a fresh id conserves every level of both sides |
| Conservation.AddPreservesConsistency | quant_dev_trial/reconstruction.cpp:38-50 | an add of a fresh id with positive size keeps map order, positive sizes and conservation |
| Conservation.EnumeratesWithout | quant_dev_trial/reconstruction.cpp:77 | erasing an id from the index removes it from the enumeration of live ids |
| Conservation.TallyRemove | quant_dev_trial/reconstruction.cpp:77 | erasing a live order takes exactly its own size and count out of the sums |
| Conservation.CancelConserves | quant_dev_trial/reconstruction.cpp:52-78 | cancelling a live order conserves every level of both sides |
| Conservation.CancelPreservesConsistency | quant_dev_trial/reconstruction.cpp:52-78 | a cancel, of a live or an unknown id, keeps the invariant |
| Conservation.ModifyPreservesConsistency | quant_dev_trial/reconstruction.cpp:80-86 | a modify keeps the invariant |
| Conservation.LevelIffOrderLive | quant_dev_trial/reconstruction.cpp:33-78 | in a consistent book, a level exists at a price iff some live order rests on that side at that price, and every level has positive size and count |
| Reconstruction.Affected | quant_dev_trial/reconstruction.cpp:290 | a queued trade's side is always 'A' or 'B', and it is 'A' exactly when the reported side is 'B' |
| Reconstruction.Depth | quant_dev_trial/reconstruction.cpp:375-392 | the reported depth always lies in 0..9; further properties in Properties.DepthInWindow |
| Reconstruction.SideDepth | quant_dev_trial/reconstruction.cpp:346-363 | the depth for a record's side lies in 0..9, and is 0 for a side other than 'B' or 'A' |
| Reconstruction.Emit | quant_dev_trial/reconstruction.cpp:223-256 | definition of writing a row; properties in Properties.StepRowCount and Properties.LastRowInWindow |
| Reconstruction.Step | quant_dev_trial/reconstruction.cpp:258-404 | definition of processing one record; properties in the Properties rows |
| Reconstruction.Run | quant_dev_trial/reconstruction.cpp:416-427 | definition of processing a file's records in order; properties in Properties.RunRowCount, Properties.RunPreservesHealth and Properties.FillsTransparent |
| Reconstruction.MatchingTrade | quant_dev_trial/reconstruction.cpp:305-306 | the scan finds the first pending trade with the sequence number, or reports that none has it |
| Reconstruction.ScanDepth | quant_dev_trial/reconstruction.cpp:317-334 | the depth loop returns the first index with the price, or 0 when no level has it |
| Reconstruction.Reconstructor.constructor | quant_dev_trial/reconstruction.cpp:196-199 | starts with an empty book, no pending trades, row counter 0 and no rows |
| Reconstruction.Reconstructor.WriteRow | quant_dev_trial/reconstruction.cpp:223-256 | appends one row with the current row index and the top ten levels of each side, then advances the counter |
| Reconstruction.Reconstructor.BidDepth | quant_dev_trial/reconstruction.cpp:346-354 | the depth of a price among the first ten bid levels |
| Reconstruction.Reconstructor.AskDepth | quant_dev_trial/reconstruction.cpp:355-363 | the depth of a price among the first ten ask levels |
| Reconstruction.Reconstructor.ProcessRecord | quant_dev_trial/reconstruction.cpp:258-404 | the state moves exactly as Step says: the pending scan, the cancel and the row for every action code |
| Reconstruction.Reconstructor.ProcessAll | quant_dev_trial/reconstruction.cpp:416-427 | processing a file's records in order moves the state as Run says |
| Properties.StepRowCount | quant_dev_trial/reconstruction.cpp:258-404 | a record writes exactly one row iff its action is R, A, M or C; earlier rows are kept; the counter advances with the rows and numbers the new row; the row is tagged with the record's action, except 'T' for a cancel that closes a queued trade |
| Properties.AddWritesRow | quant_dev_trial/reconstruction.cpp:372-397 | an add applies AddSpec, keeps the queue and writes an 'A' row with the record's side, price and size and the depth after the add |
| Properties.ModifyWritesRow | quant_dev_trial/reconstruction.cpp:399-403 | a modify leaves the book as a cancel would, keeps the queue and writes an 'M' row with depth 0 |
| Properties.RunRowCount | quant_dev_trial/reconstruction.cpp:416-427 | over a file, the rows written are the earlier rows plus one per R, A, M or C record |
| Properties.RunNumbersRows | quant_dev_trial/reconstruction.cpp:255 | the row counter always equals the number of rows written, and row i has index i |
| Properties.TradeQueues | quant_dev_trial/reconstruction.cpp:267-294 | a trade with a side other than 'N' queues one pending trade on the opposite side ('A' for 'B', else 'B') and changes nothing else |
| Properties.IgnoredRecords | quant_dev_trial/reconstruction.cpp:267-299 | fills, trades with side 'N' and unknown actions change nothing |
| Properties.ResetClears | quant_dev_trial/reconstruction.cpp:260-264 | a reset empties the book and writes an ('R', 'N', 0) row with no levels on either side |
| Properties.CancelClosesTrade | quant_dev_trial/reconstruction.cpp:302-342 | a cancel matching a pending trade removes only the first match, cancels the record's order id, and writes a 'T' row with the trade's side, price and size and the depth after the cancel |
| Properties.CancelIsOrdinary | quant_dev_trial/reconstruction.cpp:344-368 | a cancel matching no pending trade writes a 'C' row with the record's side and the depth before the cancel, and keeps the queue |
| Properties.TradeThenCancel | quant_dev_trial/reconstruction.cpp:267-342 | a trade followed by its cancel writes one 'T' row for the opposite side and leaves the queue as before |
| Properties.DepthInWindow | quant_dev_trial/reconstruction.cpp:375-392 | the depth is in 0..9: the first index of the price among the top ten levels, or 0 when it is not there |
| Properties.LastRowInWindow | quant_dev_trial/reconstruction.cpp:223-256 | a row holds at most ten levels per side in map order and a depth in 0..9 |
| Properties.StepKeepsRows | quant_dev_trial/reconstruction.cpp:223-256 | every row keeps its number and its levels stay in the window |
| Properties.StepKeepsPendingSides | quant_dev_trial/reconstruction.cpp:290 | every queued trade is for the bid or the ask side |
| Properties.StepKeepsBook | quant_dev_trial/reconstruction.cpp:258-404 | each record keeps the book conserved, given that adds are fresh with positive size |
| Properties.StartHealthy | quant_dev_trial/reconstruction.cpp:196-199 | the new reconstructor satisfies the invariant |
| Properties.StepPreservesHealth | quant_dev_trial/reconstruction.cpp:258-404 | one admissible record keeps the book conserved, the rows numbered and in the window, and the queue's sides valid |
| Properties.RunPreservesHealth | quant_dev_trial/reconstruction.cpp:416-427 | a file whose adds are all fresh with positive size keeps the invariant throughout |
| Properties.WithoutFills | quant_dev_trial/reconstruction.cpp:297-299 | dropping the fills leaves no fill behind and does not lengthen the file |
| Properties.FillsTransparent | quant_dev_trial/reconstruction.cpp:297-299 | a file ends in the same state with or without its fills |
| Properties.ResetAddAddCancelScenario | quant_dev_trial/test_suite.cpp:113-130 | reset, bid at 10.00, ask at 11.00, cancel bid: four rows, and the last row has no bids and one ask level of 11.00 x 100 from one order |

## Left out

- File and stream I/O are not modelled: `processFile` (its loop is `ProcessAll`/`Run`),
  `writeHeader`, the text of `writeMBPRecord` and `main` with its timing. Rows go to a ghost
  sequence of abstract values.
- CSV decoding (`CSVParser`) is not modelled. Records enter the model already decoded, and rows
  with fewer than 15 fields are never seen.
- Prices are modelled as integer ticks, not `double`. The source only orders prices and compares
  them for equality, so floating-point rounding and the 8- and 2-digit decimal rendering are left out.
- The passthrough fields of records and pending trades are dropped: timestamps, record type,
  publisher, instrument, channel, flags, timestamp delta and symbol. The source copies them and
  never inspects them. Rows keep the action, side, depth, price, size, order id, sequence number
  and the top levels.
- A row always carries its price. The source leaves the price cell empty when the price is not
  positive, which is a formatting choice.
- `int` overflow of sizes, counts and the row counter is not modelled. The model uses unbounded
  integers.
- Conservation.AddPreservesConsistency: the invariant is stated only for adds of a fresh id with a
  positive size. The source also accepts a live id and adds its size to a level a second time
  without withdrawing the old entry, which breaks conservation.
- `quant_dev_trial/test_suite.cpp` runs the compiled program through the shell and measures time.
  Only its order-operations scenario is stated here, as `ResetAddAddCancelScenario`.
- A `std::map` side is modelled as the sequence of its entries in map order, not as a balanced
  tree. Lookup, insert and erase by price have the map's results, but not its logarithmic cost.
