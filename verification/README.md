# Verification of the marketplace service's history rebuilding

This project models, and proves properties of, the parts of the NFT marketplace service that rebuild
history from an event store, and of the small exact algorithms around them:

- **Event ingestion** (`MarketplaceEvents`, `MarketplaceEventsIndexing`): a newest-first scroll whose pages
  are stored with insert-or-ignore and which may stop at the first page that holds a known row.
- **Marketplace reindex** (`MarketplacesReindex`, `ReindexState`): the driver that pages through the stored
  events by timestamp, trims the group a page may have cut, groups events by transaction, carries
  leftovers over, and the two saves that relabel in-memory auction ids to stored ones.
- **Analytics streaming** (`Analytics`): scroll pages regrouped into timestamp blocks with the last block
  carried over.
- **Order rollback** (`Orders`): the delete-and-reactivate loop for the orders of a reverted block.
- **Caches against the truth** (`AssetsLikes`, `RedisKeyValueDataloader`): the cached like count against the
  like rows, and the batch loader against direct lookup.
- **Printers and parsers** (`Formatters`, `Decimals`, `Strings`, `Identifiers`, `AssetsQueries`): the decimal
  formatter that edits a character array in place, identifiers, and the query string builder.
- **Scheduler and summary** (`TraitsUpdater`, `NftRarityCompute`): the round-robin trait validator and the DNA
  summary.

`Sequences` holds shared vocabulary. A class that updates its fields is a Dafny class with `modifies`
clauses; every such method is tied to a function of the old state, and the lemmas are about that function.
The database, Redis and the search index are fields of type `seq`, `set` or `map`; what they may answer
freely (the order of equal timestamps, the listing order of a block's orders, key expiry, a failing save) is
left open by the contracts or is a parameter. Asynchronous code is modelled as sequential.

## What does not hold as one might expect

The code is modelled as it is. Where a natural property fails, the exact condition is proved instead:

- The reindex loop body processes the same slice twice, so every paged event reaches `processEventsSet`
  exactly twice (`ProcessMarketplaceEventsInBatches`).
- Paging loses events exactly when some timestamp holds more events than one page (`PagingLosslessIff`).
- A page bound of zero is falsy and restarts the paging. The loop ends exactly when no pass can report zero:
  with an upper bound of zero nothing may be left to read, and otherwise a read from the start must get past
  timestamp zero on its first page (`PagingEndsIff`).
- The unique key of an event leaves out the marketplace address, so an event already stored for another
  marketplace is never stored for this one (`StoredIff`, `StoppingStoresIff`, `RowKeys`), and it can also stop
  the scroll before older events of this one (`SharedKeyHidesOlder`).
- Stopping at the first page with a stored key is complete exactly when the stored keys reach back without a
  gap. Over whole runs nothing is ever missing exactly when what other marketplaces stored of the news left no
  gap before any run; a run that dies between two new documents leaves one (`StoppingIsCompleteIff`,
  `RunsStayCompleteIff`, `InterruptedRunIsSafeIff`).
- Both saves of a reindex identify an auction by its in-memory id, and popping finished auctions compacts the
  list but not the ids. The final save uses ids as list positions: it is right exactly when every auction with
  orders stands at its id. The flush looks ids up among the popped auctions: it is right exactly when every
  auction with orders whose id a finished auction carries is itself the first finished one with that id; an id
  is taken twice exactly when a listed auction has the length of the list as its id at the next start. Runs
  that pop only the tail of the list are always right, other runs may be, and both saves have a failing one
  (`RunRightIff`, `FlushThenStartMislinks`, `FlushThenEndMislinks`).
- The analytics stream puts the carried block in front of the next page's first group without comparing
  timestamps, so a block can mix timestamps and its events are processed under the wrong one, exactly when some
  page's smallest key is not the greatest key of the page before (`CallsStampedRightIff`). Group keys are
  sorted as strings, which is time order only among equally wide timestamps (`WidthMatters`), and a stream in
  time order can have a timestamp split between two blocks (`NoTimestampSplitIff`, `TimeOrderMaySplit`).
- A rollback returns as soon as it has emptied an auction and then leaves the rest of the block's orders in
  place, so its result depends on the listing exactly when the block touches several auctions and empties one
  (`RollbackCompleteIff`, `RollbackConfluentIff`).
- The cached like count drifts by one, even without any failure, when an unlike finds no cached count
  (`ExactThroughoutIff`).
- Without decimals but with the last non-zero decimal shown, the formatter drops the point of a fraction
  (`FormatTruncatesIff`).
- The query builder looks for the default pair as a substring and skips it when two neighbouring parameters
  merely read like it (`DefaultPresentIff`, `LongerTypeListLosesPair`).
- Splitting an identifier returns its collection exactly when the collection has one dash
  (`IdentifierRoundTripIff`).

## Model

| member | source | states |
|---|---|---|
| MarketplacesReindex.MarketplacesReindexService.ProcessMarketplaceEventsInBatches | src/modules/marketplaces/marketplaces-reindex.service.ts:118-160 | Whenever the paging ends at all, the loop slices one page after the other until nothing is left to read or the bound is reached, hands every slice over twice without finishing and the leftovers once as final; the events it reads are in time order, none twice, of every timestamp behind the start and up to the upper bound as many as one page holds, and each of them is handed to processEventsSet exactly twice with nothing left over; if no timestamp outgrows a page, no delivered set splits a transaction |
| MarketplacesReindex.MarketplacesReindexService.ProcessEventsBatchAndReturnUnprocessedEvents | src/modules/marketplaces/marketplaces-reindex.service.ts:184-208 | Each delivered set is of one transaction, none of which comes again; delivered sets and remainder are the batch; unless the call is final, a set is delivered only while an event of another transaction and an event later than the first are left, and the call stops as soon as one of the two is missing, so a non-empty batch leaves a non-empty remainder; a final call leaves nothing |
| MarketplacesReindex.MarketplacesReindexService.GetMarketplaceEventsAsc | src/modules/marketplaces/marketplaces-reindex.service.ts:126-135 | An absent or zero lower bound reads from the start, any other one strictly after it |
| MarketplacesReindex.GroupAssigns | src/modules/marketplaces/marketplaces-reindex.service.ts:189-204 | Every event goes, in batch order, to the first delivered hash it is linked to; the remainder is linked to no delivered hash, so no delivered hash appears again in the call |
| MarketplacesReindex.GroupStops | src/modules/marketplaces/marketplaces-reindex.service.ts:196-200 | Before every delivered set of a call that is not final, what was left held an event later than its first one and one of another transaction; a remainder lacks one of the two, and a non-empty batch leaves one |
| MarketplacesReindex.GroupIsOnly | src/modules/marketplaces/marketplaces-reindex.service.ts:189-208 | Assigning events to delivered hashes in order and stopping in this way determine the delivered sets, their order and the remainder completely |
| MarketplacesReindex.GroupPartitions | src/modules/marketplaces/marketplaces-reindex.service.ts:189-208 | Delivered sets and remainder are a partition of the batch; a final call leaves nothing; a remainder is either wholly linked to its first hash or has no later event |
| MarketplacesReindex.RemainderIsOneTransactionOrOneTimestamp | src/modules/marketplaces/marketplaces-reindex.service.ts:196-200 | On a batch in time order a non-empty remainder is one transaction's set or all of one timestamp |
| MarketplacesReindex.GroupWhole | src/modules/marketplaces/marketplaces-reindex.service.ts:194-204 | Grouping never splits a transaction that its input holds whole, neither in a delivered set nor in the remainder |
| MarketplacesReindex.TrimSamples | src/modules/marketplaces/marketplaces-reindex.service.ts:162-175 | After trimming the newest timestamp group, a page holds of every timestamp up to its end as many events as fit a page, whichever order the database chose among equal timestamps |
| MarketplacesReindex.CutSamples | src/modules/marketplaces/marketplaces-reindex.service.ts:177-179 | Cutting a slice at the upper bound keeps exactly the events below it |
| MarketplacesReindex.SliceSamples | src/modules/marketplaces/marketplaces-reindex.service.ts:162-182 | A slice is complete up to the reported bound, and either the loop ends there or the bound moved forward to an existing row |
| MarketplacesReindex.ConcatSamples | src/modules/marketplaces/marketplaces-reindex.service.ts:128-148 | Slices of adjacent ranges concatenate to a slice of the whole range, in order and without duplicates |
| MarketplacesReindex.PagingLosslessIff | src/modules/marketplaces/marketplaces-reindex.service.ts:118-182 | What was paged is exactly the table between the bounds if and only if no timestamp there holds more events than a page |
| MarketplacesReindex.PagingEndsIff | src/modules/marketplaces/marketplaces-reindex.service.ts:128-148 | The number of loop passes is bounded, whatever pages the database picks, exactly when: with an upper bound of zero nothing is left to read, and otherwise a read from the start does not find a first page that ends at timestamp zero |
| MarketplacesReindex.EndsAtZeroIff | src/modules/marketplaces/marketplaces-reindex.service.ts:166-175 | Whether a page read from the start is trimmed to timestamp zero depends on the table alone: it has rows at zero, and the rows up to any later timestamp fill the page or are all there is |
| MarketplacesReindex.ZeroStays | src/modules/marketplaces/marketplaces-reindex.service.ts:133-148 | Once a pass has reported the bound zero, every later pass does |
| MarketplacesReindex.ZeroForever | src/modules/marketplaces/marketplaces-reindex.service.ts:128-148 | Where the paging does not end, runs of any length that report zero exist |
| MarketplacesReindex.PassAdvances | src/modules/marketplaces/marketplaces-reindex.service.ts:133-148 | Where it ends, a pass that goes on moves the bound above zero and leaves fewer rows to read |
| MarketplacesReindex.SamplesWhole | src/modules/marketplaces/marketplaces-reindex.service.ts:162-182 | A slice splits no transaction when transactions have one timestamp and every timestamp fits a page |
| MarketplaceEvents.MarketplaceEventsRepository.SaveOrIgnoreBulk | src/db/marketplaces/marketplace-events.repository.ts:13-30 | Chunking by the batch size is invisible: the table is the one of a single insert-or-ignore of the whole list, and the count is the number of added rows |
| MarketplaceEvents.MarketplaceEventsRepository.GetEventsByMarketplaceAndTimestampsAsc | src/db/marketplaces/marketplace-events.repository.ts:32-53 | The first rows of the address in time order, up to the page size; a matching row is left out only by a full page of rows no newer than it; a lower bound alone is exclusive, and with both bounds the upper one holds |
| MarketplaceEvents.InsertAllKeys | src/db/marketplaces/marketplace-events.repository.ts:17-27 | Insert-or-ignore keeps every stored row in place, stores every offered key, invents none and never duplicates one |
| MarketplaceEvents.AllSavedIff | src/db/marketplaces/marketplace-events.repository.ts:14-29 | The saved count equals the offered count exactly when no offered key was stored or is repeated in the offer |
| MarketplaceEvents.StoredIff | src/db/marketplaces/marketplace-events.entity.ts:5-6 | An offered event is stored as it is exactly when it was before or no row had its key, whatever address that row has |
| MarketplaceEventsIndexing.StoppingIsComplete | src/modules/marketplaces/marketplaces-events-indexing.service.ts:128-142 | If everything behind a page with a stored key is stored, a newest-first run that stops at the first such page stores the key of every source event |
| MarketplaceEventsIndexing.CutKeepsClosed | src/modules/marketplaces/marketplaces-events-indexing.service.ts:128 | Whether the stored keys reach back without a gap is a matter of the documents, not of where pages are cut |
| MarketplaceEventsIndexing.FullScrollIsComplete | src/modules/marketplaces/marketplaces-events-indexing.service.ts:139 | Without early stopping a scroll stores every key, whatever was stored before |
| MarketplaceEventsIndexing.StoppingIsCompleteIff | src/modules/marketplaces/marketplaces-events-indexing.service.ts:137-141 | Stopping is complete for every way the documents may be cut into pages if and only if everything behind a document with a stored key was stored |
| MarketplaceEventsIndexing.StoppingStoresIff | src/modules/marketplaces/marketplaces-events-indexing.service.ts:137-141 | After such a run a source event is stored as this marketplace's row exactly when it was before or nobody had stored its key |
| MarketplaceEventsIndexing.RunsStayCompleteIff | src/modules/marketplaces/marketplaces-events-indexing.service.ts:67-97 | Over any number of runs of two scrolls each, with other marketplaces storing rows in between, nothing that ever appeared is missing after any run, however the scrolls are cut, if and only if before every run what is stored of the new transactions and of the new logs leaves no gap |
| MarketplaceEventsIndexing.SharedKeyHidesOlder | src/modules/marketplaces/marketplaces-events-indexing.service.ts:128-141 | A run that loses an event: when another marketplace has stored the newer of two transactions, the scroll stores neither |
| MarketplaceEventsIndexing.KeysByCollection | src/modules/marketplaces/marketplaces-events-indexing.service.ts:152-201 | The keys of the transaction scroll and of the log scroll are disjoint |
| MarketplaceEventsIndexing.BatchesAreUnits | src/modules/marketplaces/marketplaces-events-indexing.service.ts:128-137 | A scroll over non-empty pages is a scroll over the rows of their documents |
| MarketplaceEventsIndexing.InterruptedRunIsSafeIff | src/modules/marketplaces/marketplaces-events-indexing.service.ts:87-93 | A run that dies after storing the first recent documents keeps early stopping safe exactly when it had stored none and there was no gap, or when the keys of all the others were stored already |
| MarketplaceEventsIndexing.PageRowsExactly | src/modules/marketplaces/marketplaces-events-indexing.service.ts:178-201 | The rows of a page of logs are exactly its events with a known identifier, each with the identifier, original hash and timestamp of its log, the order of the event and the address, and not marked as a transaction |
| MarketplaceEventsIndexing.LogRowFields | src/modules/marketplaces/marketplaces-events-indexing.service.ts:183-206 | The rows of one log are its known events in order, field by field |
| MarketplaceEventsIndexing.TxRowFields | src/modules/marketplaces/marketplaces-events-indexing.service.ts:155-171 | Every transaction has one row in order, with its identifier and timestamp, no original hash and the default order |
| MarketplaceEventsIndexing.RowKeys | src/modules/marketplaces/marketplaces-events-indexing.service.ts:152-172 | Two log rows share a key exactly when identifier and order agree, two transaction rows exactly when identifiers do, a transaction row never takes a log row's key, and the address plays no part |
| MarketplaceEventsIndexing.DistinctLogsIff | src/modules/marketplaces/marketplaces-events-indexing.service.ts:183-206 | The keys of all rows of some logs are distinct exactly when no two known events share both the identifier of their log and their order |
| MarketplaceEventsIndexing.DistinctTransactionsIff | src/modules/marketplaces/marketplaces-events-indexing.service.ts:155-171 | The keys of some transactions are distinct exactly when their identifiers are |
| MarketplaceEventsIndexing.DocumentsFit | src/modules/marketplaces/marketplaces-events-indexing.service.ts:67-97 | Any history of documents with distinct transaction identifiers and distinct pairs of identifier and order meets what the theorem over runs asks of rows |
| MarketplaceEventsIndexing.DocumentRunsStayCompleteIff | src/modules/marketplaces/marketplaces-events-indexing.service.ts:67-97 | So for documents alone: over any number of runs nothing that ever appeared is missing, however the scrolls are cut, if and only if what other marketplaces stored never leaves a gap |
| MarketplaceEventsIndexing.EmptyPageEnds | src/modules/marketplaces/marketplaces-events-indexing.service.ts:129-131 | Nothing behind the first empty page is read |
| MarketplaceEventsIndexing.MarketplaceEventsIndexingService.AddGenericElasticDataToDbAndReturnNewestTimestamp | src/modules/marketplaces/marketplaces-events-indexing.service.ts:119-145 | The scroll leaves the table `Ingest` gives for the page batches, and reports the newest document's timestamp |
| MarketplaceEventsIndexing.MarketplaceEventsIndexingService.ReindexMarketplaceEvents | src/modules/marketplaces/marketplaces-events-indexing.service.ts:67-97 | A run is the transaction scroll followed by the log scroll over the same table, the two scrolls the theorem over runs is about; bounds in the wrong order store nothing |
| MarketplaceEventsIndexing.MarketplaceEventsIndexingService.SaveTxToDb | src/modules/marketplaces/marketplaces-events-indexing.service.ts:152-176 | One row per transaction is offered, in order and with the transaction's fields; the two counts are the added and the offered rows |
| MarketplaceEventsIndexing.MarketplaceEventsIndexingService.FilterEventsAndSaveToDb | src/modules/marketplaces/marketplaces-events-indexing.service.ts:178-214 | The nested loops offer exactly the rows of the known events, each with the identifier, original hash and timestamp of its log, its own order and the address; the two counts are the added and the offered rows |
| Analytics.StreamConserves | src/modules/analytics/analytics.service.ts:98-138 | For any pages, the processed blocks together with the final flush hold every log exactly as often as the pages |
| Analytics.GroupsKeepPageIff | src/modules/analytics/analytics.service.ts:124-127 | Regrouping leaves a page as it is exactly when the page is in key order |
| Analytics.StreamRefinesFlatIff | src/modules/analytics/analytics.service.ts:98-138 | The blocks and the flush, flattened, are the concatenated pages if and only if every page is in key order; where the pages are cut never matters |
| Analytics.TimeOrderIsKeyOrder | src/modules/analytics/analytics.service.ts:127 | Time order is key order among timestamps of equally many digits |
| Analytics.WidthMatters | src/modules/analytics/analytics.service.ts:127 | 9 before 10 is in time order but not in key order |
| Analytics.NoTimestampSplitIff | src/modules/analytics/analytics.service.ts:105-122 | For any pages in any order, the logs of one timestamp never land in two blocks, the final flush included, if and only if two pages that share a timestamp have it as greatest key of the earlier and smallest key of the later one, with at most one timestamp to each page between |
| Analytics.OrderedStreamNotSplit | src/modules/analytics/analytics.service.ts:105-122 | In particular no timestamp is split when the whole stream is in key order, however it is cut |
| Analytics.TimeOrderMaySplit | src/modules/analytics/analytics.service.ts:127 | The pages 9, 10 and 10 are in time order and have 10 in two blocks |
| Analytics.BlocksOneTimestampIff | src/modules/analytics/analytics.service.ts:128-129 | For any pages, every block holds a single timestamp exactly when each non-empty page's smallest key is the greatest key of the non-empty page before |
| Analytics.EndsOfOrderedPage | src/modules/analytics/analytics.service.ts:127 | In a page in key order these are the timestamps of its first and its last log |
| Analytics.CallsStampedRightIff | src/modules/analytics/analytics.service.ts:106-121 | For any pages, every processed log is stamped with its own timestamp exactly under that same condition |
| Analytics.CallsCarryTheEvents | src/modules/analytics/analytics.service.ts:106-121 | The processing calls carry exactly the analytics events of the stream, in stream order |
| Analytics.AnalyticsService.GetBlocksGroupedByTimestamp | src/modules/analytics/analytics.service.ts:124-138 | The blocks of a page behind the carried one, all of which but the last are to be processed now |
| Analytics.AnalyticsService.OnPage | src/modules/analytics/analytics.service.ts:101-118 | One callback processes all blocks but the last in order and carries the last one |
| Analytics.AnalyticsService.GetProcessedEvents | src/modules/analytics/analytics.service.ts:98-122 | Over a whole scroll there is one call for every block, with the block's indexed events in order and the timestamp of its first log, and only the last call, the flush, is marked as the last ingest; the calls together carry exactly the analytics events of the pages, in page order when the pages are in key order; the run fails, without a call, exactly when there was no log at all |
| Orders.OrdersRepository.RollbackOrdersByHash | src/db/orders/orders.repository.ts:103-121 | The loop that re-reads the table at every step works through all of the listing, or the part up to the first order that emptied its auction, and leaves the survivors in storage order: active and dated now if later orders of their auction existed and are all deleted, and otherwise as they were |
| Orders.OrdersRepository.RollbackOrder | src/db/orders/orders.repository.ts:109-119 | One listed order: no row keeps its id; if it was the last of several, the one before it gets the status active and the date, and every other row stays; an emptied auction is reported |
| Orders.PassIsRolled | src/db/orders/orders.repository.ts:108-119 | One loop pass on an already rolled-back table is one more deleted order in the one-pass result |
| Orders.RolledRow | src/db/orders/orders.repository.ts:113-118 | A surviving order is reactivated exactly when orders of its auction were stored after it and all of them are deleted; it is untouched otherwise |
| Orders.RolledFields | src/db/orders/orders.repository.ts:103-121 | The one-pass result position by position and field by field: the survivors in storage order, the ones that lost all later orders of their auction active and dated now, the others unchanged |
| Orders.RolledRows | src/db/orders/orders.repository.ts:103-121 | The result holds the survivors and nothing else |
| Orders.RolledKeepsOrder | src/db/orders/orders.repository.ts:103-121 | The survivors keep their storage order |
| Orders.RollbackCompleteIff | src/db/orders/orders.repository.ts:110-112 | No order of the block is left exactly when no proper part of the listing empties an auction |
| Orders.CompleteForEveryListingIff | src/db/orders/orders.repository.ts:103-121 | The rollback is complete for every listing order if and only if the block touches one auction only, or every touched auction keeps an order of another block |
| Orders.RollbackConfluentIff | src/db/orders/orders.repository.ts:103-121 | Any two executions over any two listings leave the same table if and only if the block touches one auction only or every touched auction keeps an order of another block; then no order of the block is left |
| Orders.OrdersRepository.GetOrdersByBlockHash | src/db/orders/orders.repository.ts:132-134 | Any order of exactly the block's orders |
| Orders.OrdersRepository.GetOrdersForAuction | src/db/orders/orders.repository.ts:136-143 | Exactly the auction's orders, each as often as stored, in storage order, so that the last one returned is the last one stored |
| Orders.OrdersRepository.UpdateOrderWithStatus | src/db/orders/orders.repository.ts:97-101 | Position by position: the row with the order's id gets the status and the date, every other row stays as and where it is |
| ReindexState.AddInactiveStateItemsToDb | src/modules/marketplaces/marketplaces-reindex.service.ts:412-461 | The flush pops the finished auctions with the orders that carry their ids and stores every order with the auction at its looked-up position and that auction's fresh id; the stored orders are right exactly when `FlushRight` |
| ReindexState.FlushRightIff | src/modules/marketplaces/marketplaces-reindex.service.ts:420-448 | In every reachable state a flush stores all popped orders with their own auctions exactly when every auction with orders whose id some finished auction carries is itself finished, and the first finished one with that id |
| ReindexState.FlushRightForAnyOrderIff | src/modules/marketplaces/marketplaces-reindex.service.ts:420-448 | It is right whichever auction gets an order next exactly when no listed auction shares the id of a finished one |
| ReindexState.DistinctIdsFlushRight | src/modules/marketplaces/marketplaces-reindex.service.ts:420-448 | With distinct in-memory ids a flush is right |
| ReindexState.StartKeepsIdsDistinctIff | src/modules/marketplaces/marketplaces-reindex-handlers/reindex-auction-started.handler.ts:28 | A starting auction keeps ids distinct exactly when no listed auction has the length of the list as its id |
| ReindexState.AddMarketplaceStateToDb | src/modules/marketplaces/marketplaces-reindex.service.ts:463-475 | The final save stores every order with the auction at position auctionId, and fails exactly when some id is no position; it is right exactly when `FinalSaveRight` |
| ReindexState.FinalSaveRightIff | src/modules/marketplaces/marketplaces-reindex.service.ts:463-475 | In every reachable state the final save succeeds and stores all orders with their own auctions exactly when every auction with orders stands at the position that is its id |
| ReindexState.FinalSaveRightForAnyOrderIff | src/modules/marketplaces/marketplaces-reindex.service.ts:472-475 | It is right whichever auction gets an order next exactly when all ids are positions |
| ReindexState.PopKeepsPositionsIff | src/modules/marketplaces/models/MarketplaceReindexState.ts:105-111 | Popping keeps ids equal to positions exactly when no active auction is listed after a finished one |
| ReindexState.StepKeepsOwned | src/modules/marketplaces/marketplaces-reindex-handlers/reindex-auction-started.handler.ts:25-51 | Every step, a flush included, keeps that ids are never below positions and that every order's own auction is listed and carries the order's id |
| ReindexState.RunKeepsOwned | src/modules/marketplaces/marketplaces-reindex.service.ts:128-148 | The same over any run, whatever is flushed when |
| ReindexState.StepKeepsPositions | src/modules/marketplaces/marketplaces-reindex-handlers/reindex-auction-started.handler.ts:25-51 | Every step except a flush from the middle of the list keeps ids equal to positions |
| ReindexState.RunRightIff | src/modules/marketplaces/marketplaces-reindex.service.ts:128-160 | Over any run, all flushes and the final save are right if and only if at every flush the auctions with orders finish first among those with their id, and at the end they stand at their ids |
| ReindexState.TailFlushesRunRight | src/modules/marketplaces/marketplaces-reindex.service.ts:412-475 | A run whose flushes pop only the tail of the list saves everything right |
| ReindexState.FlushThenStartMislinks | src/modules/marketplaces/marketplaces-reindex-handlers/reindex-auction-started.handler.ts:28 | A six-step run after which the final save stores a bid on one auction with another one |
| ReindexState.FlushThenEndMislinks | src/modules/marketplaces/marketplaces-reindex.service.ts:420-448 | One step more, and a flush pops the bid of a running auction and stores it with the auction that took its id |
| ReindexState.MarketplaceReindexState.PopInactiveItems | src/modules/marketplaces/models/MarketplaceReindexState.ts:97-130 | Pops exactly the auctions that are closed or ended and keeps exactly those without a status, running or claimable; pops an order exactly when a listed closed or ended auction has its auction id; nothing is lost or doubled, and every remaining order's own auction stays listed |
| ReindexState.MarketplaceReindexState.SetAuctionStatus | src/modules/marketplaces/marketplaces-reindex-handlers/reindex-auction-closed.handler.ts:15-24 | Only the auction at the position changes, and only in its status; a position that is none changes nothing |
| ReindexState.MarketplaceReindexState.HandleAuctionStarted | src/modules/marketplaces/marketplaces-reindex-handlers/reindex-auction-started.handler.ts:25-51 | The new auction is listed last and running, with the old length of the list as its id; ids stay distinct exactly when no listed auction had that id; every order keeps its own auction |
| ReindexState.MarketplaceReindexState.CreateOrder | src/modules/marketplaces/models/MarketplaceReindexState.ts:43-62 | In a reachable state the new order carries the id of the auction it was made for, which is listed; a position that is none adds nothing; auctions and earlier orders stay |
| Formatters.Format | src/utils/formatters.ts:4-58 | The array editing (padding, point, cut, comma splices on the reversed array) yields the text `Formatted` describes |
| Formatters.Denominate | src/utils/formatters.ts:68-82 | `...` is passed through, an empty or missing amount counts as zero, everything else is formatted |
| Formatters.FormatTruncatesIff | src/utils/formatters.ts:7-34 | The printed number is the amount cut, never rounded, to the decimals asked for, exactly when the point of a fraction is not lost |
| Formatters.FormatExactIff | src/utils/formatters.ts:18-33 | The printed number equals the amount exactly when the point is not lost and the last non-zero decimal is shown, the decimals cover the denomination, or the digits cut off are zero |
| Formatters.FormatScale | src/utils/formatters.ts:19-58 | The fraction has no digits exactly when the digits to keep are zero, otherwise as many as the decimals asked for, and more only when the last non-zero decimal is shown and then ending in a digit that is not zero |
| Formatters.FormatWidth | src/utils/formatters.ts:9-13 | The integer part has the digits in front of the denomination, or a single zero |
| Formatters.CommasOnlyGroup | src/utils/formatters.ts:35-47 | Without its commas the output is the output without thousands separators |
| Formatters.GroupedShape | src/utils/formatters.ts:35-47 | The integer part is one to three digits followed by comma-separated groups of exactly three |
| Formatters.AddCommas | src/utils/formatters.ts:35-47 | The reversed, spliced and re-reversed array is the integer part grouped from the right with the decimals left alone |
| Formatters.SpliceCommas | src/utils/formatters.ts:39-45 | The splices at shifting positions put a comma behind every third integer digit but the last |
| Formatters.InsertPoint | src/utils/formatters.ts:8-13 | Padding and inserting the point splits the digits into an integer part of at least one digit and a fraction of the denomination's length |
| Formatters.PadDecimals | src/utils/formatters.ts:14-17 | The loop appends exactly the zeros missing from the fraction |
| Formatters.PointAndCut | src/utils/formatters.ts:7-34 | The whole cutting phase keeps exactly the decimals asked for, or up to the last non-zero digit if that is later |
| Formatters.LastNonZero | src/utils/formatters.ts:20-26 | The backwards search finds one past the last digit that is not a zero |
| Identifiers.NominateRoundTrip | src/utils/formatters.ts:84-90 | A nonce is printed as a non-empty, even number of hexadecimal digits that parse back to it |
| Identifiers.NominateShortest | src/utils/formatters.ts:84-90 | No leading zero byte is written, except for zero itself |
| Identifiers.HalvesRejoin | src/utils/helpers.ts:24-31 | The two halves of any string rejoin to it; with at most one dash the collection is the whole string, and otherwise it has exactly one dash |
| Identifiers.IdentifierRoundTripIff | src/db/auctions/auction.entity.ts:122-124 | Splitting collection-nonce returns both exactly when the collection has one dash |
| AssetsQueries.AssetsQuery.constructor | src/modules/assets/assets-query.ts:8-11 | An absent or empty seed gives an empty builder, any other one is added as a query; the string is empty or opens with a separator |
| AssetsQueries.AssetsQuery.AddParamToQuery | src/modules/assets/assets-query.ts:13-17 | Appends one parameter with the right separator; an absent value or an empty name changes nothing |
| AssetsQueries.AssetsQuery.AddQuery | src/modules/assets/assets-query.ts:19-24 | Appends a query without doubling its separator, and keeps the string opened by a separator |
| AssetsQueries.AssetsQuery.AddPageSize | src/modules/assets/assets-query.ts:58-68 | Adds both page parameters, or none for a size of zero |
| AssetsQueries.ShownReads | src/modules/assets/assets-query.ts:58-68 | A number is printed as its digits without leading zeros, behind a sign exactly when it is negative, and reads back |
| AssetsQueries.AssetsQuery.Build | src/modules/assets/assets-query.ts:120-127 | The recursive build returns the string, with the default pair appended unless it is contained or not wanted |
| AssetsQueries.PageSizeIsTwoParams | src/modules/assets/assets-query.ts:58-68 | The page size is the two parameters from and size |
| AssetsQueries.ChainRenders | src/modules/assets/assets-query.ts:13-17 | Any chain of calls prints its parameters in order with one leading question mark |
| AssetsQueries.ChainRoundTrip | src/modules/assets/assets-query.ts:13-68 | With separator-free values the string of any chain parses back to its parameters in order |
| AssetsQueries.IncludesIffMeet | src/modules/assets/assets-query.ts:125 | Containing the pair as a substring is the same as two neighbouring parts ending and starting with its halves |
| AssetsQueries.SkippedIff | src/modules/assets/assets-query.ts:125 | The default pair is skipped exactly when two neighbouring parameters read like it |
| AssetsQueries.BuildRoundTrip | src/modules/assets/assets-query.ts:120-127 | Parsing a built string gives the parameters, followed by the default pair unless it was skipped |
| AssetsQueries.DefaultPresentIff | src/modules/assets/assets-query.ts:120-127 | The built string carries the default pair exactly when nothing merely reads like it, and an added pair is there once |
| AssetsQueries.LongerTypeListLosesPair | src/modules/assets/assets-query.ts:125 | A longer type list behind the real first half is enough to lose the pair |
| AssetsQueries.BuildIdempotent | src/modules/assets/assets-query.ts:8-24 | Building twice changes nothing, on the same builder or on one seeded with the built string |
| AssetsLikes.CountWithinOne | src/modules/assets/assets-likes.service.ts:42-140 | Over every run of likes, failed likes, unlikes and expiries a cached count is never negative, never above the number of rows and at most one below |
| AssetsLikes.ExactThroughoutIff | src/modules/assets/assets-likes.service.ts:98-106 | From an exact count, the count stays exact along a run exactly when no unlike reloads a missing count and no failed like's count expires before it is taken back |
| AssetsLikes.WarmCountStaysExact | src/modules/assets/assets-likes.service.ts:42-127 | Without expiry a count that is cached to begin with stays exact |
| AssetsLikes.ReloadHeals | src/modules/assets/assets-likes.service.ts:129-140 | A wrong count is right again after expiry and a reload, unless the reload is an unlike's |
| AssetsLikes.AssetsLikesService.AddLike | src/modules/assets/assets-likes.service.ts:42-76 | A repeated like changes nothing; a new one adds the row and the count, or neither when the save fails; other assets are untouched |
| AssetsLikes.AssetsLikesService.RemoveLike | src/modules/assets/assets-likes.service.ts:78-96 | Removes the row and counts down only if there was one; other assets are untouched |
| AssetsLikes.AssetsLikesService.DecrementLikesCount | src/modules/assets/assets-likes.service.ts:98-113 | Loads the count if missing and never takes it below zero |
| AssetsLikes.AssetsLikesService.IncrementLikesCount | src/modules/assets/assets-likes.service.ts:115-127 | Loads the count if missing and adds one |
| AssetsLikes.AssetsLikesService.LoadLikesCount | src/modules/assets/assets-likes.service.ts:129-140 | Returns the cached count, or caches and returns the number of rows |
| RedisKeyValueDataloader.RedisKeyValueDataloader.BatchLoad | src/modules/common/redis-key-value-dataloader.handler.ts:31-63 | One answer per key in key order, duplicates included: the value cached under the name and the key, or else the first of the source's answers; the answers are those of direct lookup exactly when none of the keys' cached values is stale; the source is asked only when a value is missing; afterwards exactly the missing keys are written, and agreement with the source is kept |
| RedisKeyValueDataloader.RedisKeyValueDataloader.MapReturnValues | src/modules/common/redis-key-value-dataloader.handler.ts:73-87 | Aligns the cached entries with the keys and puts an empty entry where none is cached |
| RedisKeyValueDataloader.RedisKeyValueDataloader.MapValues | src/modules/artists/artists.redis-handler.ts:13-28 | Fills the empty entries in place and lists exactly those, in order |
| RedisKeyValueDataloader.BatchWrites | src/modules/common/redis-key-value-dataloader.handler.ts:42-47 | After a batch each asked key holds its answer and every other key what it held |
| RedisKeyValueDataloader.CacheKeyInjective | src/utils/generate-cache-key.ts:3-13 | Distinct keys never share a cache entry |
| TraitsUpdater.WaitIsBounded | src/crons/elastic.updater/traits.updater.service.ts:41-48 | From any stored cursor every collection is validated within ceil((n-1)/m)+2 runs, the empty wrap-around run included |
| TraitsUpdater.BoundIsTight | src/crons/elastic.updater/traits.updater.service.ts:41-48 | The first collection does wait that long when the cursor has just passed it |
| TraitsUpdater.Wraps | src/crons/elastic.updater/traits.updater.service.ts:43-48 | The cursor returns to the start after exactly the computed number of runs and not before |
| TraitsUpdater.TraitsUpdaterService.HandleValidateTokenTraits | src/crons/elastic.updater/traits.updater.service.ts:24-58 | Every page contributes its distinct tokens in the order of their first occurrence; one run validates the window behind the cursor and moves the cursor to its end, or back to the start when the window is empty |
| TraitsUpdater.DedupeKeepsFirsts | src/crons/elastic.updater/traits.updater.service.ts:35 | A page's list names each of its tokens once, in the order of first occurrences |
| TraitsUpdater.TraitsUpdaterService.UpdateCollectionTraits | src/crons/elastic.updater/traits.updater.service.ts:89-109 | Every collection is tried in order; the failing ones are reported and stop nothing |
| NftRarityCompute.CountDna | src/modules/nft-rarity/nft-rarity.compute.service.ts:60-83 | Each trait's count is the number of NFTs with an integer attribute there and the sum over its attributes; each attribute's count is the number of NFTs that have it |
| NftRarityCompute.TraitCountIs | src/modules/nft-rarity/nft-rarity.compute.service.ts:60-79 | The count of a trait is the number of NFTs with an integer attribute at its position |
| NftRarityCompute.AttributeCountIs | src/modules/nft-rarity/nft-rarity.compute.service.ts:60-80 | The count of an attribute is the number of NFTs that have it at that position |
| NftRarityCompute.ComputeDNASummary | src/modules/nft-rarity/nft-rarity.compute.service.ts:52-99 | The summary has an entry for exactly the trait positions in use and the attributes that occur; every total is the exact number of NFTs and the sum over the attributes, percentage and frequency are its share of the collection and rarity the inverse |
| NftRarityCompute.FrequenciesAddUp | src/modules/nft-rarity/nft-rarity.compute.service.ts:88-93 | The attribute frequencies of a trait times the collection size are the trait's count |
| NftRarityCompute.FrequenciesWithinOne | src/modules/nft-rarity/nft-rarity.compute.service.ts:85-96 | With no more NFTs than the collection size the frequencies of a trait add up to at most one, and to one exactly when every token has the trait |
| NftRarityCompute.RarityIsInverse | src/modules/nft-rarity/nft-rarity.compute.service.ts:92-93 | Frequency times rarity is one |
| Decimals.DecimalOrder | src/modules/analytics/analytics.service.ts:127 | Equally wide decimal numbers are ordered as strings exactly as they are as numbers |

## Left out

- MarketplacesReindex.MarketplacesReindexService.ProcessMarketplaceEventsInBatches: asks for exactly the condition under which the paging ends (`PagingEndsIff`); whether rows exactly at the upper bound are included depends on how the pages fall, so `hi` may be the bound or one below it.
- MarketplaceEvents.MarketplaceEventsRepository.SaveOrIgnoreBulk: asks for a positive batch size, which is a constant of the service; the row's JSON payload is not modelled.
- ReindexState.RunRightIff: the event handlers are reduced to their effect on list positions, ids and the finished status; prices, winners, expiry by date, tags and offers are not modelled, nor are reindexes that do not hold the full state in memory and load missing orders from the database.
- ReindexState.AddInactiveStateItemsToDb: auctions and orders are values in list fields, so two lists sharing one entity object are not captured; the serial of an auction and the field `about` of an order are the model's own record of which auction an order was made for.
- MarketplaceEventsIndexing.MarketplaceEventsIndexingService.ReindexMarketplaceEvents: the update of the last-index timestamp and the lock around the run are not modelled.
- AssetsLikes.AssetsLikesService.AddLike: feed, publisher and Redis calls succeed; a key expiring between the load and the increment inside one count change, and concurrent requests, are not modelled.
- Formatters.Denominate: amounts are digit strings; negative amounts and amounts with a point are not modelled.
- RedisKeyValueDataloader.RedisKeyValueDataloader.BatchLoad: an empty key list gives an empty list here and `undefined` in the source; the error wrapping, the time to live and expiry between the read and the write are not modelled.
- TraitsUpdater.WaitIsBounded: assumes a fixed list of collections and that the stored cursor does not expire between runs.
- NftRarityCompute.ComputeDNASummary: numbers are exact rationals and the collection size is positive; the original divides by zero into infinity, rounds floats, and keys attributes by their printed form.
- Analytics.AnalyticsService.GetProcessedEvents: starts from the fresh state its only caller passes; what processEvents does with a call (the marketplace address filter, parsing, ingestion) is not modelled.
- Orders.OrdersRepository.GetOrdersForAuction: the query has no ordering, and the model assumes that the database returns storage order; one modification date is used per rollback.
- AssetsQueries.AssetsQuery.AddParamToQuery: values are strings; URL encoding of search terms and list values is the caller's.
- The last-index timestamp: `Math.max` with an absent side gives NaN, and the compared request field comes from a class that is not part of this model.
- `updateIngestData`: its last branch overwrites every measure, so no accumulated volume is claimed.
- The rarity score algorithms, the trait and attribute metadata and the rank assignment.
- SQL, TypeORM, Elastic, Redis, RabbitMQ, locks, logging, metrics, GraphQL, IPFS and content moderation: only the contracts named above.
