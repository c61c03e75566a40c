# Verified model of the ERP's ordering, storage and delivery logic

This project models the parts of the ERP repository where several operations, or several runs of one operation, must
fit together, and proves what they promise for every input, every run or every interleaving:

- the deterministic slot scheduler (`DemandOrder`, `Scheduling`, `Packing`);
- the CSV printer and parser of the web client, and the sanitising printer of the export script (`Text`, `Csv`,
  `CsvCells`, `CsvAnyText`, `SanitisedCsv`);
- the part transformation graph, its store and the seed that links it (`Parts`, `PartChain`, `PartRepository`,
  `LifecycleLinks`);
- the outbox: one-shot finalization, concurrent `publishWithOutbox` calls, and the batch drainer with crashes
  (`Outbox`, `OutboxProtocol`, `OutboxDrain`, `DrainRuns`), also when drain runs overlap (`DrainOverlap`);
- the worker's bounded retry, the QuickBooks invoice queue, the two together under repeated delivery, and invoice
  handlers that run at the same time (`Worker`, `InvoiceQueue`, `EffectivelyOnce`, `InvoiceRace`);
- payment sync, in its batch and its webhook form (`PaymentSync`, `PaymentAgreement`, `PaymentBatches`, `PaymentMixes`);
- scope grants and row filtering (`Scope`, `ScopeResolution`, `RowAccess`);
- the offline mutation queue and its replay (`OfflineQueue`, `OfflineConservation`, `OfflineSentAgain`).

`Options` and `Lists` hold what several modules share.

Code that updates variables or stored rows in place is a method with loops, or a class, proved against a specification
function or predicate; the main results are then lemmas about that specification. Where the source reads a clock, a
random id or the outcome of a call to another system, the value is a parameter, so every theorem holds for all of them.

## Findings

Some properties one would expect fail for some inputs. Each is stated with the exact condition under which it holds.

- The sanitising printer escapes its cells but not its header line. Its text reads back as header and sanitised cells
  for all records if and only if the header row is blank or all its names are free of quotes, commas and line breaks
  (`SanitisedRoundTripIff`), and has rows + 1 lines if and only if the header line is one line (`WrittenLines`). The
  header lists that the script itself passes (scripts/extract-shopmonkey-csvs.ts:175-203) are all plain, so only the
  signature of `writeCsv` admits a header that fails.
- The upward walk of `getChain` takes a link to the empty id for no link; the downward search follows it. Ancestors
  and descendants mirror each other if and only if no live part links to a stored part whose id is empty
  (`DualityIff`).
- A scope key joins trimmed ids with a colon, so ids with colons can collide and a later grant displaces an earlier
  one (`CollidingGrants`). No grant is lost if and only if no two different valid grants share a key
  (`KeepsEveryGrantIff`); resolution is containment for every target if and only if each valid grant has a
  grant at or above it that no later one of the same key displaces (`ResolutionIsContainmentIff`).
- An offline mutation accepted while a replay awaits a call is overwritten when the replay ends, though the floor
  manual (docs/operations/floor-tech-manual.md:58) says nothing is lost (`AcceptedDuringReplayIsLost`), and so is one
  that only a replay holds whose page closes (`AbandonedReplayLoses`). Over a run of enqueues and overlapping replays
  every accepted item stays queued, sent or with a replay under way if and only if no replay ends while the queue holds
  an unsent item that no replay under way has read, and none is abandoned that alone holds an unsent item
  (`NothingLostIff`).
- Replays that overlap can queue an item again after it was sent (`OverlapQueuesSentItem`), and each click on the replay
  button starts one (apps/web/src/components/TopHeader.tsx:105-108). At rest the queue never holds a sent item if and
  only if the last replay to end never failed on an item on which another call went through, is never abandoned while
  the queue holds such an item, and no such item is accepted at rest (`SentAgainIff`).
- docs/architecture/work-order-module-design.md:438 speaks of at-least-once delivery via the outbox. An event whose
  publish throws before the bus took it is marked FAILED and never offered again (`RefusedIsNeverSent`); a bus may also
  throw after it took the event (packages/events/src/eventbridge-bus.ts:57-71), and then the row is FAILED although the
  event got out. Over runs that leave nothing PENDING, every event was taken if and only if no row was settled by a
  publish that threw before taking it, without an earlier run having been lost after getting that event through
  (`AtLeastOnceIff`, row by row `TakenIff`).
- The updates of a drain run go by id alone, so of two runs that overlap one can mark a row FAILED that the other has
  marked PUBLISHED (`PublishedThenFailed`). However runs overlap, every mark finds its row PENDING if and only if
  no mark of a row falls between another run's read of it and that run's own mark (`SettledOnceIff`).
- Two invoice handlers that both look before either creates leave two records for one work order
  (`InterleavedLookupsQueueTwice`). Under any interleaving no work order ever has two active records if and only if no
  create for it falls between another handler's lookup and that handler's own create (`SafeIff`).
- `WorkerRuntime.handle` drops an event without calling its handler if and only if `maxRetries` is not positive
  (`NeverTriedIff`); the environment loader excludes such values (apps/workers/src/config/env.ts:8-14).
- Payment sync by webhook takes the oldest PENDING record, while a comment above the query
  (apps/workers/src/jobs/qb-payment-sync.job.ts:48-51) says that the newest is wanted. The model
  follows the code; the record taken is the newest if and only if no other record is PENDING
  (`WebhookTakesNewestIff`).
- n webhook runs leave what one batch of n leaves, error text aside, unless a record throws again while it is marked
  FAILED: the batch then stops, the webhook runs go on (`FormsPart`). They agree if and only if no attempt aborts so, or
  the first that does takes the last PENDING record out of PENDING, or in every later trial neither the first update
  nor the one to FAILED takes effect (`WebhooksAreOneBatchIff`).
- Where the database does not fail, the error texts of the two payment sync forms differ exactly when the linked
  invoice is missing (`SameTextIff`).
- `getChain` has no visited set. Its upward loop ends, within as many steps as there are records, if and only if it
  stands on no record twice (`WalkEndsIff`), its downward loop if and only if the part is not below itself
  (`LevelsRunOutIff`). Two live parts that name each other can be saved, and neither loop ends (`TwoPartsInACircle`).
- A demand of negative hours reopens a slot that was passed over (`NegativeHoursReopenASlot`). For demands with hours
  from a given set, first fit is maximal and without inversions on all slots if and only if no negative hours in the
  set have others above them (`MaximalityIff`). The only caller drops demands whose estimate is not positive
  (apps/api/src/contexts/build-planning/buildSlotProjection.ts:385).

## Model

| member | source | states |
|---|---|---|
| Scheduling.ComputeDeterministicSchedule | packages/scheduling/src/engine.ts:11-65 | The nested loops over the remaining-hours map compute the first-fit placement of the stably sorted demands, for any slots, duplicate slot ids included |
| DemandOrder.CompareMeans | packages/scheduling/src/engine.ts:15-26 | Higher priority first, then earlier due date, no due date last, then the lower-ranked work order id; two demands tie exactly when all three agree |
| DemandOrder.SortIsStableSort | packages/scheduling/src/engine.ts:15-26 | The order served is sorted by the comparator and keeps the input order of ties |
| DemandOrder.StableSortUnique | packages/scheduling/src/engine.ts:15-26 | Sortedness and stability determine the order, so no other sorting algorithm could give a different schedule |
| DemandOrder.StableSortPermutes | packages/scheduling/src/engine.ts:15-26 | A stable sort of the demands is a permutation of them |
| DemandOrder.SortOfPermutation | packages/scheduling/src/engine.ts:15-26 | With pairwise distinct keys, every permutation of the input is served in the same order |
| DemandOrder.SortWithOneMore | packages/scheduling/src/engine.ts:15-26 | A new demand enters the order at one place and moves no other demand relative to the rest |
| Packing.ScheduleIsPartition | packages/scheduling/src/engine.ts:36-64 | Every demand is either assigned once or left over once |
| Packing.AssignmentsServe | packages/scheduling/src/engine.ts:45-51 | Assignment k has the work order id, the operation id and the hours of the k-th demand served, and the id of one of the given slots |
| Packing.PassedOverForGood | packages/scheduling/src/engine.ts:39-54 | A slot before the chosen one, and every slot for a demand left over, ends with strictly fewer hours than the demand needs |
| Packing.Maximality | packages/scheduling/src/engine.ts:36-59 | No demand left over would fit into any slot at the end, if no hours are negative |
| Packing.NoInversion | packages/scheduling/src/engine.ts:15-59 | A demand that got a slot after another was left over needs strictly fewer hours than that one |
| Packing.MaximalityIff | packages/scheduling/src/engine.ts:15-59 | Maximality, and likewise no inversion, holds for all slots and all demands with hours from a set if and only if no negative hours in the set have others above them |
| Packing.NegativeHoursReopenASlot | packages/scheduling/src/engine.ts:41-45 | For any negative hours and any hours above them there are demands with these hours, and a slot, for which maximality and no inversion fail |
| Packing.HoursAreConserved | packages/scheduling/src/engine.ts:28-51 | At every moment the available hours of the last slot with an id are what is left plus the hours assigned to that id |
| Packing.NeverOverbooked | packages/scheduling/src/engine.ts:28-45 | The hours assigned to an id are at most the available hours of the last slot with that id |
| Packing.OwnHours | packages/scheduling/src/engine.ts:28-31 | With distinct slot ids, as the packing bound has them, the hours that count for each slot are its own |
| Packing.PlacementMeans | packages/scheduling/src/engine.ts:28-54 | A demand goes to the first slot whose available hours, less those assigned to its id before, are enough; every slot passed over is too small by the same reckoning |
| Packing.LeftOverFitsNowhere | packages/scheduling/src/engine.ts:28-59 | What no assignment has used of a slot's available hours is too little for any demand left over |
| Packing.PairMoreThanFull | packages/scheduling/src/engine.ts:28-59 | If some demand chose slot j, any slot before j and slot j together hold more hours than the earlier one has |
| Packing.MoreThanHalfFull | packages/scheduling/src/engine.ts:28-59 | Packing bound: m >= 2 slots in use with C available hours each hold more than m * C / 2 hours in total |
| Packing.TotalIsSum | packages/scheduling/src/engine.ts:46-51 | The total of the assigned hours is the sum over the slot ids |
| Packing.ScheduleOfPermutation | packages/scheduling/src/engine.ts:15-64 | With pairwise distinct keys, assignments and leftovers are the same for every order of the input |
| Packing.OneMoreDemand | packages/scheduling/src/engine.ts:15-59 | Adding a demand anywhere in the input changes no placement of a demand sorted before it |
| Csv.ParseCsv | apps/web/src/lib/csv-client.ts:30-74 | The index loop, which may take two characters in a turn, computes the scan of the whole text minus blank rows |
| Csv.ParseInvertsPrint | apps/web/src/lib/csv-client.ts:6-86 | Any table printed with LF, CR or CRLF after each row, even mixed, parses back to the table without its blank rows |
| Csv.CsvRoundTrip | apps/web/src/lib/csv-client.ts:6-12 | For all columns and rows of arbitrary strings, parsing the printed text gives header and body without blank rows |
| Csv.ParseIsCanonical | apps/web/src/lib/csv-client.ts:30-74 | For every text, printing its parse with any line ends and parsing again gives the same rows |
| Csv.ScanCell | apps/web/src/lib/csv-client.ts:83-86 | An escaped cell followed by anything but a quote is read as exactly that cell |
| CsvCells.CellsComeBack | apps/web/src/lib/csv-client.ts:6-74 | Where every row has some text, the parse of the printed text holds each header and, in cell (i, k), what column k makes of row i, empty for a missing value |
| CsvCells.NonBlankMeans | apps/web/src/lib/csv-client.ts:73 | Exactly the rows with some cell that is more than white space are kept |
| CsvCells.QuotedIff | apps/web/src/lib/csv-client.ts:83-86 | A cell is quoted exactly if it holds a quote, a comma, CR or LF |
| CsvCells.ScanParts | apps/web/src/lib/csv-client.ts:40-65 | Quoted sections are read wherever they stand in a field, next to bare text, and put together |
| CsvCells.UnclosedQuote | apps/web/src/lib/csv-client.ts:40-71 | A quote that is never closed takes the rest of the text into its cell, commas and line breaks included |
| CsvAnyText.ParseKeepsText | apps/web/src/lib/csv-client.ts:36-71 | Of any text, malformed quoting included, the cells hold in order every character that is not punctuation, and at most one quote for two |
| CsvAnyText.QuoteFreeCellsArePlain | apps/web/src/lib/csv-client.ts:40-65 | A text without quotes yields no cell with a comma or a line break |
| Text.TrimTrims | apps/web/src/lib/csv-client.ts:73 | Trimming leaves no white end, adds nothing, and leaves the empty string exactly for blank input |
| Text.TrimKeepsMiddle | apps/web/src/lib/csv-client.ts:73 | Trimming takes white space off the two ends and leaves what is between |
| Text.WhiteSpace | apps/web/src/lib/csv-client.ts:73 | The white space that is trimmed is that of ECMAScript, character by character |
| SanitisedCsv.WriteCsv | scripts/extract-shopmonkey-csvs.ts:36-44 | The stream holds the header line and one line for each record, in order |
| SanitisedCsv.SanitizeIdempotent | scripts/extract-shopmonkey-csvs.ts:22-26 | A sanitised value has no line break and no white end, and sanitising it again changes nothing |
| SanitisedCsv.RunBecomesSpace | scripts/extract-shopmonkey-csvs.ts:24-25 | Each run of line breaks becomes one space, and what is before and after it stays |
| SanitisedCsv.SanitisedCells | scripts/extract-shopmonkey-csvs.ts:40 | Cell (i, k) of the table that is read back is the sanitised value of record i under header k, empty if there is none |
| SanitisedCsv.EscapeSanitisedIsEscape | scripts/extract-shopmonkey-csvs.ts:28-34 | On a sanitised value this printer and the client's printer write the same cell |
| SanitisedCsv.SanitisedRoundTripIff | scripts/extract-shopmonkey-csvs.ts:36-44 | The written text parses to header and sanitised records minus blank rows, for all records, if and only if the header row is blank or needs no quoting |
| SanitisedCsv.WrittenLines | scripts/extract-shopmonkey-csvs.ts:24-41 | The text has exactly rows + 1 physical lines if and only if the header line is one line |
| PartRepository.InMemoryPartRepository.constructor | packages/db/src/repositories/part.repository.ts:69-70 | A new store is empty |
| PartRepository.InMemoryPartRepository.Save | packages/db/src/repositories/part.repository.ts:110-112 | A known id gets the new record in its place, an unknown one is appended, all else is unchanged and ids stay distinct |
| PartRepository.InMemoryPartRepository.SoftDelete | packages/db/src/repositories/part.repository.ts:114-119 | Only the deletion date of the record with the id changes, and nothing at all for an unknown id |
| PartRepository.InMemoryPartRepository.GetChain | packages/db/src/repositories/part.repository.ts:121-149 | Terminates wherever the source does; undefined exactly for an unknown id; otherwise the full root-to-parent path and the list of all levels below |
| PartRepository.InMemoryPartRepository.Ancestors | packages/db/src/repositories/part.repository.ts:125-134 | Where the upward walk ends, the loop ends with the path from a part without parent down to the part's own parent |
| PartRepository.InMemoryPartRepository.Descendants | packages/db/src/repositories/part.repository.ts:136-146 | Unless the part is below itself, the queue without a visited set runs empty, having listed the levels below the part, nearest first |
| PartRepository.LastTurn | packages/db/src/repositories/part.repository.ts:138-146 | The queue is empty only when the levels below the part have run out |
| Parts.SavedGets | packages/db/src/repositories/part.repository.ts:111 | Saving changes the lookup of the saved id and of no other |
| Parts.RankedIffGrounded | packages/db/src/repositories/part.repository.ts:125-146 | The links strictly decrease some rank if and only if no chain of links is endless |
| PartChain.DescendantListMeans | packages/db/src/repositories/part.repository.ts:136-146 | The descendants are free of duplicates, ordered by distance, and exactly the live parts reached through live parts |
| PartChain.DescendantsByFields | packages/db/src/repositories/part.repository.ts:136-146 | Each descendant is stored, has no deletion date, and names the part or another descendant as its source; every such record is a descendant |
| PartChain.AncestorsByFields | packages/db/src/repositories/part.repository.ts:125-134 | Each ancestor is named by the next record on the path, the last by the part itself, and the first names no stored parent |
| PartChain.LevelsRunOutIff | packages/db/src/repositories/part.repository.ts:138-146 | The levels below a part run out, and the queue with them, if and only if the part is not below itself |
| PartChain.GroundedChainEnds | packages/db/src/repositories/part.repository.ts:125-146 | Where the links above a part come to an end, as on every store whose links decrease a rank, both loops end |
| PartChain.DualityIff | packages/db/src/repositories/part.repository.ts:125-146 | Live d is below p exactly when p is an ancestor of d with only live parts between, for all p and d, if and only if no live part links by the empty id |
| PartChain.Duality | packages/db/src/repositories/part.repository.ts:125-146 | That equivalence for any two parts and the very lists that the two loops return |
| PartChain.EmptyIdLinkBreaksDuality | packages/db/src/repositories/part.repository.ts:126-141 | A live link by the empty id is seen downwards and not upwards |
| PartChain.WalkEndsIff | packages/db/src/repositories/part.repository.ts:129-134 | The upward walk ends if and only if it stands on no record twice, and if and only if it ends within as many steps as there are records |
| PartChain.TwoPartsInACircle | packages/db/src/repositories/part.repository.ts:110-146 | Two live parts that name each other make a store on which neither loop ends |
| LifecycleLinks.PartTable.UpdateLinks | packages/db/prisma/seed-inventory-master.ts:299-305 | Only the two link fields of the row with the id change |
| LifecycleLinks.PartTable.LinkLifecycleChain | packages/db/prisma/seed-inventory-master.ts:268-309 | Every row is linked to its source as found in the table before the run; the result is the number of rows that differ |
| LifecycleLinks.LevelsAscend | packages/db/prisma/seed-inventory-master.ts:270-275 | The order of levels by which links descend: raw material, raw component, prepared, assembled |
| LifecycleLinks.LinksDescendIff | packages/db/prisma/seed-inventory-master.ts:268-309 | After a run every link goes to a strictly lower level if and only if the links of rows without a predecessor already did |
| LifecycleLinks.LinkedTableIsGrounded | packages/db/prisma/seed-inventory-master.ts:268-309 | Hence after a run over such a table no chain of links is endless, as reading chains requires |
| LifecycleLinks.SecondRun | packages/db/prisma/seed-inventory-master.ts:296-308 | A second run changes nothing and returns 0 |
| LifecycleLinks.EveryMatchIsLinked | packages/db/prisma/seed-inventory-master.ts:284-305 | Every live prepared or assembled part with a matching live predecessor is linked to one, with that one's stage |
| LifecycleLinks.LinkedByFields | packages/db/prisma/seed-inventory-master.ts:270-305 | A row is linked to a live part of its name and variant exactly one level below, prepared to raw and assembled to prepared, if there is one, with that part's stage; otherwise it is unchanged |
| Outbox.InMemoryOutbox.constructor | packages/events/src/event-bus.ts:42-43 | A new outbox is empty |
| Outbox.InMemoryOutbox.Append | packages/events/src/event-bus.ts:45-48 | The record goes last |
| Outbox.InMemoryOutbox.UpdateState | packages/events/src/event-bus.ts:50-76 | Result and records are those of the one-shot finalization |
| Outbox.UpdateMeans | packages/events/src/event-bus.ts:55-75 | Not found if and only if no record has the id; already finalized or updated if and only if the first record with the id is not, or is, PENDING; an update sets that record's state, time and reason and nothing else |
| Outbox.FinalizedOnce | packages/events/src/event-bus.ts:60-65 | A second finalization throws and changes nothing |
| Outbox.InMemoryEventPublisher.Publish | packages/events/src/publishers.ts:12-18 | A publish that does not throw adds the event |
| Outbox.PublishWithOutbox | packages/events/src/publishers.ts:20-47 | With a fresh id, one record with the event's name, correlation id, payload and time is added and finalized by the publish outcome, which is returned or thrown again |
| OutboxProtocol.PublishSafety | packages/events/src/publishers.ts:20-47 | Under every interleaving: PENDING records are exactly the calls in flight, neither error of the outbox is met, each other record was finalized once, PUBLISHED ones match successful publishes |
| OutboxProtocol.AfterAllCalls | packages/events/src/publishers.ts:25-46 | Once no call is in flight nothing is PENDING and successful publishes are exactly the PUBLISHED records |
| OutboxProtocol.SettleRecords | packages/events/src/event-bus.ts:55-75 | Finalizing a PENDING record succeeds and changes that record's state only |
| OutboxDrain.OutboxTable.ProcessOutbox | packages/events/src/outbox-processor.ts:42-101 | One run attempts the oldest PENDING rows in order, marks each by its outcome, leaves others alone, stops at a crash, and counts processed = published + failed |
| OutboxDrain.OutboxTable.PublishAndMark | packages/events/src/outbox-processor.ts:71-97 | One record is offered to the bus once and marked by how that went; a crash in between leaves it PENDING |
| OutboxDrain.MarkedByFields | packages/events/src/outbox-processor.ts:74-93 | A success sets PUBLISHED and its time, an error FAILED and its reason, each with one more attempt and nothing else changed |
| OutboxDrain.SuccessesByRows | packages/events/src/outbox-processor.ts:59-100 | The number reported as published is the number of rows the run made PUBLISHED |
| OutboxDrain.EnvelopesByFields | packages/events/src/outbox-processor.ts:63-69 | Each event offered has the id, name, correlation id, creation time and payload of its row |
| OutboxDrain.SortIsPendingOrder | packages/events/src/outbox-processor.ts:49-53 | The batch is taken from the PENDING rows, each once, in order of creation |
| DrainRuns.RowMovesOnce | packages/events/src/outbox-processor.ts:71-96 | Over any number of runs and crashes a row moves at most once, from PENDING to PUBLISHED or FAILED |
| DrainRuns.MoveMeans | packages/events/src/outbox-processor.ts:74-93 | A move raises attemptCount by exactly one, sets the time or the reason by the final state, and keeps the event's fields |
| DrainRuns.AttemptsInOrder | packages/events/src/outbox-processor.ts:49-72 | The bus sees records in order of creation across all runs, repeated attempts included |
| DrainRuns.AttemptedAgainOnlyAfterCrash | packages/events/src/outbox-processor.ts:71-81 | A record is attempted twice only if the earlier run crashed on it |
| DrainRuns.PublishedWasTaken | packages/events/src/outbox-processor.ts:71-81 | Every row that ends PUBLISHED was taken by the bus in some run |
| DrainRuns.TakenIff | packages/events/src/outbox-processor.ts:62-97 | The bus took the event of a settled row in some run if and only if its settling publish did not throw before the bus took it, or an earlier run was lost after getting it through |
| DrainRuns.AtLeastOnceIff | packages/events/src/outbox-processor.ts:42-101 | Over runs that leave nothing PENDING, every event was taken at least once if and only if no row was refused for good |
| DrainRuns.RefusedIsNeverSent | packages/events/src/outbox-processor.ts:71-96 | One row and one run with a bus that throws: the table is drained and the row FAILED, and its event is never taken if and only if the bus threw before taking it |
| DrainRuns.SettledOnce | packages/events/src/outbox-processor.ts:71-96 | One attempt settles a row; every other attempt at it comes in an earlier run and crashes |
| DrainRuns.PendingAfterRun | packages/events/src/outbox-processor.ts:62-97 | What is PENDING after a run is exactly the unsettled rest of its order |
| DrainRuns.PendingCount | packages/events/src/outbox-processor.ts:49-98 | A run lowers the number of PENDING rows by exactly the number of records it settled |
| DrainRuns.DrainedIff | packages/events/src/outbox-processor.ts:42-101 | With batch size b >= 1, runs that finish drain n PENDING rows if and only if there are at least ceil(n / b) of them |
| DrainOverlap.SettledOnceIff | packages/events/src/outbox-processor.ts:49-98 | However drain runs overlap, every mark finds its row PENDING if and only if no mark of a row falls between another run's read of it and that run's own mark |
| DrainOverlap.FindsPendingIff | packages/events/src/outbox-processor.ts:71-96 | One mark finds its row PENDING if and only if no mark of that row came since its run had read the batch |
| DrainOverlap.PendingOverRun | packages/events/src/outbox-processor.ts:49-98 | A PENDING row stays PENDING exactly until the first mark of it, and never is again |
| DrainOverlap.MarkedOverByFields | packages/events/src/outbox-processor.ts:74-93 | A mark sets the state and the time or the reason of the row as it now is, and counts one more attempt than the row had when it was read |
| DrainOverlap.PublishedThenFailed | packages/events/src/outbox-processor.ts:74-94 | Two overlapping runs take a row from PUBLISHED to FAILED, and of their two attempts one is counted |
| DrainOverlap.PublishedWasOffered | packages/events/src/outbox-processor.ts:63-81 | However runs overlap, a row that is ever PUBLISHED had its event offered to the bus in a publish that succeeded |
| Worker.WorkerRuntime.constructor | apps/workers/src/worker.ts:22-26 | A new runtime has the bound and no handlers |
| Worker.WorkerRuntime.Register | apps/workers/src/worker.ts:28-30 | The event name now has this handler, other names keep theirs |
| Worker.WorkerRuntime.Handle | apps/workers/src/worker.ts:32-61 | Unknown events change nothing; known ones run the bounded retry |
| Worker.RetryMeans | apps/workers/src/worker.ts:40-60 | The handler runs n times, all but the last throwing; it ends well if the last did, and throws only after all allowed attempts |
| Worker.NeverTriedIff | apps/workers/src/worker.ts:40-41 | The event is dropped untried if and only if the bound is not positive |
| InvoiceQueue.AccountingTables.HandleWorkOrderCompletedForQb | apps/workers/src/jobs/qb-invoice-sync.job.ts:24-77 | The handler, throwing at any database call, does what one attempt of the find-or-create does |
| InvoiceQueue.FindActive | apps/workers/src/jobs/qb-invoice-sync.job.ts:41-43 | A record of the work order that is not cancelled, or none if there is none |
| InvoiceQueue.QueueByFields | apps/workers/src/jobs/qb-invoice-sync.job.ts:29-76 | An attempt appends one PENDING record numbered INV- and the work order's number, with the ids of the event and the call, exactly if nothing throws and no record of the work order is open; it skips with the id of such a record; a missing id and a missing work order throw their errors |
| InvoiceQueue.AtMostOneByFields | apps/workers/src/jobs/qb-invoice-sync.job.ts:41-43 | The invariant says that no two records that are not CANCELLED are of one work order |
| InvoiceQueue.AttemptIsSafe | apps/workers/src/jobs/qb-invoice-sync.job.ts:41-76 | Wherever it throws, an attempt keeps at most one active record per work order, adds at most one, and leaves exactly one if it returns |
| InvoiceRace.SafeIff | apps/workers/src/jobs/qb-invoice-sync.job.ts:41-71 | Under any interleaving of handlers at their database calls, no work order ever has two active records if and only if no create for it falls between another handler's lookup and create |
| InvoiceRace.CreateKeepsIff | apps/workers/src/jobs/qb-invoice-sync.job.ts:59-71 | A create keeps the invariant if and only if its work order still has no active record |
| InvoiceRace.CreateFindsNoneIff | apps/workers/src/jobs/qb-invoice-sync.job.ts:41-71 | A handler that creates finds no active record if and only if no create for its work order came since its own lookup |
| InvoiceRace.InterleavedLookupsQueueTwice | apps/workers/src/jobs/qb-invoice-sync.job.ts:41-71 | The run look, look, confirm, confirm, create, create of two handlers leaves two active records |
| InvoiceRace.AloneIsQueueInvoice | apps/workers/src/jobs/qb-invoice-sync.job.ts:41-76 | A handler that nothing comes between, and that stops at the call that throws, leaves what one sequential attempt with that fault leaves |
| EffectivelyOnce.DeliveryIsSafe | apps/workers/src/worker.ts:32-61 | A delivery with all its retries adds at most one record; one that succeeds leaves exactly one active record |
| EffectivelyOnce.DeliverySucceeds | apps/workers/src/worker.ts:40-46 | A delivery for an existing work order succeeds if any allowed attempt meets no fault |
| EffectivelyOnce.AlwaysAtMostOne | apps/workers/src/jobs/qb-invoice-sync.job.ts:41-71 | Over every sequence of deliveries and outside changes, no work order ever has two active records |
| EffectivelyOnce.RunCreatesOnce | apps/workers/src/jobs/qb-invoice-sync.job.ts:41-71 | Without cancellations a work order gains a record only together with its one active record |
| EffectivelyOnce.QueuedExactlyOnce | apps/workers/src/jobs/qb-invoice-sync.job.ts:41-71 | After one delivery succeeded the work order has exactly one active record at every later moment, and at most one was created in the whole run |
| EffectivelyOnce.PublishedIsQueuedOnce | packages/events/src/outbox-processor.ts:71-81 | End to end: an outbox row that ends PUBLISHED over crashing runs has its work order queued exactly once, if one of its deliveries succeeded |
| EffectivelyOnce.EverPublishedIsQueuedOnce | packages/events/src/outbox-processor.ts:71-81 | The same for drain runs that overlap, even if one marks the row FAILED after another marked it PUBLISHED |
| PaymentSync.PaymentTables.Handler | apps/workers/src/payment-sync.handler.ts:27-126 | The batch attempts the oldest PENDING records in turn, each by one or two updates by id, and stops at the first that throws again while it is marked FAILED; if it completes, processed = succeeded + failed |
| PaymentSync.PaymentTables.HandleWebhookReceived | apps/workers/src/jobs/qb-payment-sync.job.ts:30-124 | A missing event id throws and changes nothing; skipped exactly if nothing is PENDING; otherwise the oldest PENDING record is attempted and the result says how |
| PaymentSync.PendingOrder | apps/workers/src/payment-sync.handler.ts:34-38 | The places of the PENDING records, oldest first |
| PaymentAgreement.AttemptEndsWell | apps/workers/src/payment-sync.handler.ts:49-117 | In both forms a record ends SYNCED if its links hold undisturbed and FAILED if not, unless the update to FAILED is lost: then it keeps the state of the last update that took effect; the count goes up by one unless the first update took no effect |
| PaymentAgreement.EndsByFields | apps/workers/src/payment-sync.handler.ts:62-90 | Where the database does not fail, both forms end a record SYNCED if its work order is there and the invoice it names, if it names one, and FAILED otherwise |
| PaymentAgreement.ErrorsByFields | apps/workers/src/payment-sync.handler.ts:63-81 | The error text that each form leaves, also when both links are missing |
| PaymentAgreement.CountByRecords | apps/workers/src/payment-sync.handler.ts:92-111 | The number reported as succeeded is the number of records the batch made SYNCED |
| PaymentAgreement.ThrowAlike | apps/workers/src/jobs/qb-payment-sync.job.ts:77-94 | The two orders of checking throw at the same records |
| PaymentAgreement.SameTextIff | apps/workers/src/jobs/qb-payment-sync.job.ts:87-94 | Their error texts agree if and only if the invoice link holds |
| PaymentAgreement.WebhookTakesNewestIff | apps/workers/src/jobs/qb-payment-sync.job.ts:48-55 | The record that the webhook job takes is the newest PENDING one if and only if there is no other |
| PaymentAgreement.OrderUnique | apps/workers/src/payment-sync.handler.ts:34-38 | The order of creation, ties by table order, leaves one possible list |
| PaymentBatches.BatchesCompose | apps/workers/src/payment-sync.handler.ts:46-118 | A batch of n that does not abort and then one of m, which may, do what one of n + m does |
| PaymentBatches.AbortStops | apps/workers/src/payment-sync.handler.ts:98-109 | After an abort a larger batch size makes no difference |
| PaymentMixes.AnyMixIsOneBatch | apps/workers/src/payment-sync.handler.ts:34-118 | Any sequence of webhook runs and batches, of which none but the last meets an abort, leaves what one batch of the same number of attempts leaves, error text aside |
| PaymentMixes.WebhooksAreOneBatch | apps/workers/src/jobs/qb-payment-sync.job.ts:52-123 | n webhook runs leave what one batch of size n leaves, error text aside, if no attempt but perhaps the last aborts |
| PaymentMixes.WebhooksAreOneBatchIff | apps/workers/src/jobs/qb-payment-sync.job.ts:52-123 | Aborts or not, they agree if and only if no attempt aborts, or the first that does takes the last PENDING record out of PENDING, or all later trials are idle |
| PaymentMixes.FormsPart | apps/workers/src/payment-sync.handler.ts:98-109 | Of two PENDING records the older throws twice: the batch leaves the younger PENDING, the second webhook run makes it SYNCED |
| PaymentMixes.LeftPendingMeans | apps/workers/src/payment-sync.handler.ts:34-118 | How many records a batch leaves PENDING, aborts included |
| PaymentMixes.MixSettlesTheOldest | apps/workers/src/payment-sync.handler.ts:34-118 | Without aborts exactly the oldest n PENDING records are settled, each SYNCED or FAILED as its links say, and every other record is unchanged |
| Scope.NormalizeScopeGrants | packages/auth/src/scope.ts:64-76 | The loop over the map gives the deduplicated grants in order of first insertion |
| Scope.ResolveEffectiveScope | packages/auth/src/scope.ts:99-121 | The loop returns the first of the heaviest matching grants |
| Scope.MatchesIffPrefix | packages/auth/src/scope.ts:159-184 | A grant matches a target exactly when its path of ids is a prefix of the target's; the weight is the path's length |
| Scope.NormalizedMeans | packages/auth/src/scope.ts:64-76 | Deduplication keeps, of the valid grants with one key, exactly the last, in normal form |
| Scope.NormalizeByFields | packages/auth/src/scope.ts:127-157 | A grant is valid if each of its ids has some text, and its normal form has these ids, trimmed |
| Scope.PutKeepsPlaces | packages/auth/src/scope.ts:72 | A known key keeps its place and gets the new grant, a new one goes last |
| Scope.NormalizeIdempotent | packages/auth/src/scope.ts:64-76 | Normalizing twice is normalizing once, whatever the ids |
| ScopeResolution.KeyInjective | packages/auth/src/scope.ts:53-62 | On normalized grants whose organisation and shop ids hold no colon the key determines the grant |
| ScopeResolution.SeparableNoCollision | packages/auth/src/scope.ts:53-62 | So such grants never collide |
| ScopeResolution.KeepsEveryGrantIff | packages/auth/src/scope.ts:64-76 | Deduplication keeps exactly the valid grants if and only if no two of them share a key |
| ScopeResolution.EffectiveScopeIsSound | packages/auth/src/scope.ts:99-121 | What resolution returns is a valid grant that contains the target, whatever the ids |
| ScopeResolution.ResolutionIsContainment | packages/auth/src/scope.ts:99-121 | Without collisions a grant is found exactly when some grant contains the target, and it is the most specific one |
| ScopeResolution.ResolutionIsContainmentIff | packages/auth/src/scope.ts:99-121 | For any list, resolution is containment for all targets if and only if each valid grant has a grant at or above it that is not overwritten |
| ScopeResolution.CollidingGrants | packages/auth/src/scope.ts:57-72 | Two shops whose ids hold colons collide, and the first grant is lost |
| ScopeResolution.AuthorityKeptIff | packages/auth/src/scope.ts:99-121 | One list authorises all that another does if and only if it keeps a grant at or above each one the other keeps |
| ScopeResolution.MoreGrants | packages/auth/src/scope.ts:99-125 | Without collisions more grants never take a target away |
| ScopeResolution.ResolveNormalized | packages/auth/src/row-access.ts:130-131 | Normalizing the grants before resolution makes no difference |
| RowAccess.FilterRowsByScope | packages/auth/src/row-access.ts:146-173 | The loop splits the rows by their decisions, denied rows with their reasons |
| RowAccess.ResolvedIsNormal | packages/auth/src/row-access.ts:53-119 | A resolved target is in normal form and names exactly the ids that are there, normalized; each refusal is given exactly when its id is the first that is asked for and missing |
| RowAccess.PresentByFields | packages/auth/src/row-access.ts:175-182 | An id counts as there if it has some text, and is taken trimmed |
| RowAccess.DecisionByFields | packages/auth/src/row-access.ts:121-144 | A decision passes on the reason of a refusal, or the target that was looked up, with ALLOW or DENY_SCOPE |
| RowAccess.AllowedIffContained | packages/auth/src/row-access.ts:121-144 | Without collisions a row is allowed exactly when its scope resolves and some grant contains it |
| RowAccess.LowerMinimumSameTarget | packages/auth/src/row-access.ts:53-119 | A scope that resolves at a higher minimum level resolves to the same target at a lower one |
| RowAccess.HigherMinimumAllowsLess | packages/auth/src/row-access.ts:121-144 | Raising the minimum level allows no row that was denied |
| RowAccess.MoreGrantsAllowMore | packages/auth/src/row-access.ts:121-144 | Without collisions more grants deny no row that was allowed |
| RowAccess.FilterPartitions | packages/auth/src/row-access.ts:150-167 | Allowed and denied rows shuffle back into the rows in order, each row taken from the list its decision says |
| RowAccess.FilterDecides | packages/auth/src/row-access.ts:157-166 | Each row stands where its decision says, a denied one with its reason and never with ALLOW |
| RowAccess.MoreGrantsFilter | packages/auth/src/row-access.ts:146-173 | Adding grants without collisions only moves rows from denied to allowed |
| RowAccess.HigherMinimumFilter | packages/auth/src/row-access.ts:146-173 | Raising the minimum level only moves rows from allowed to denied |
| OfflineQueue.LocalStorage.QueueMutation | apps/web/src/lib/api-client.ts:189-201 | An item with a new key goes last, one with a known key changes nothing, keys stay distinct |
| OfflineQueue.LocalStorage.ReplayOfflineQueue | apps/web/src/lib/api-client.ts:203-221 | Uninterrupted, the queue afterwards is the failed items in order and the others were sent in order |
| OfflineQueue.ReplaySplits | apps/web/src/lib/api-client.ts:207-220 | Each item is kept or sent, none is both or neither |
| OfflineQueue.QueueSafety | apps/web/src/lib/api-client.ts:189-221 | Under every interleaving of enqueues and overlapping replays, queued keys stay distinct and every queued item was once accepted |
| OfflineQueue.UninterruptedReplay | apps/web/src/lib/api-client.ts:203-221 | In the interleaved machine too, a replay nothing interrupts ends with exactly the failed items queued |
| OfflineConservation.NothingLostIff | apps/web/src/lib/api-client.ts:189-221 | Over every run every accepted item stays queued, sent or with a replay under way, if and only if no replay finishes while the queue holds an unsent item that no replay under way has read, and none is abandoned that alone holds an unsent item |
| OfflineConservation.NothingLostAtRest | apps/web/src/lib/api-client.ts:189-221 | Under that condition every accepted item is queued or sent whenever no replay is under way |
| OfflineConservation.LostOnlyAtEnd | apps/web/src/lib/api-client.ts:220 | A step loses an item if and only if it finishes a replay over an unsent queued item that none has read, or abandons the only replay that holds an unsent item |
| OfflineConservation.HeldAfterFinish | apps/web/src/lib/api-client.ts:203-221 | What the finish of a replay leaves of an item: it stays held if and only if it was sent or some replay under way had read it |
| OfflineConservation.OverlappingReplaysLoseNothing | apps/web/src/lib/api-client.ts:203-221 | Overlapping replays, abandoned ones too, lose nothing as long as nothing is accepted while one is under way |
| OfflineConservation.ReadByAnotherReplay | apps/web/src/lib/api-client.ts:205-220 | A run in which one replay overwrites an item and another, which had read it, puts it back |
| OfflineConservation.AbandonedReplayLoses | apps/web/src/lib/api-client.ts:205-220 | The same run, except that the page of the other replay closes: the item is lost |
| OfflineConservation.AcceptedDuringReplayIsLost | apps/web/src/lib/api-client.ts:197-220 | A run in which an accepted item is neither sent nor queued in the end |
| OfflineSentAgain.SentAgainIff | apps/web/src/lib/api-client.ts:203-221 | At rest the queue never holds a sent item if and only if the last replay to end never failed on an item that another call sent, is never abandoned with one in the queue, and none is accepted at rest |
| OfflineSentAgain.PutBackByCall | apps/web/src/lib/api-client.ts:207-218 | What a replay puts back is exactly what its own calls failed on since it started |
| OfflineSentAgain.SentByCall | apps/web/src/lib/api-client.ts:208-215 | What was sent is exactly what some call went through on |
| OfflineSentAgain.OneAtATimeSendsOnce | apps/web/src/lib/api-client.ts:203-221 | Replays that run one at a time to their ends never queue an item again after it was sent, unless it is itself accepted again |
| OfflineSentAgain.OverlapQueuesSentItem | apps/web/src/lib/api-client.ts:203-221 | A run of two overlapping replays that ends with a sent item in the queue |

## Left out

- OfflineQueue.QueueSafety: a call whose answer never arrives because its page closes counts as not sent; a replay that is never answered, finished or abandoned stays under way.
- Packing.MoreThanHalfFull: assumes estimated hours that are not negative, as do the results on single slots that it rests on.
- PartRepository.InMemoryPartRepository.GetChain: asks that the upward walk stands on no record twice and the part is not below itself; on other stores one of the source's two loops never ends, and there is no result to state.
- PaymentMixes.AnyMixIsOneBatch: for batches and webhook runs mixed, says nothing of runs that follow one that aborts; for webhook runs alone `PaymentMixes.WebhooksAreOneBatchIff` says when they still agree.
- InvoiceRace.SafeIff: no record is cancelled while the handlers run.
- DrainRuns.RowMovesOnce: one drain run at a time, as in all of `DrainRuns`; runs that overlap are the subject of `DrainOverlap`.
- OutboxProtocol.PublishSafety: speaks of publishes that return; one that throws may have got its event out all the same.
- EffectivelyOnce.QueuedExactlyOnce: handles deliveries one after the other, and only for work orders whose active record is not cancelled meanwhile.
- OutboxDrain.OutboxTable.ProcessOutbox: a batch size is not negative, and the database returns rows created at the same moment in an order of its own.
- PaymentSync.PendingOrder: rows created at the same moment are taken in table order, in both forms, where the database leaves that open.
- LifecycleLinks.PartTable.LinkLifecycleChain: the predecessor lookup returns the first match in table order, where the database leaves the choice open.
- Strings are sequences of Unicode characters; lone surrogates, and the conversion of numbers and booleans to text before printing, are not modelled.
- Hours and priorities are real numbers, without rounding, NaN or infinities; due dates are valid instants or missing.
- `localeCompare` is an arbitrary ranking of strings; the sort itself is one stable sort, which by `DemandOrder.StableSortUnique` is no restriction.
- Prisma, local storage, JSON encoding, EventBridge, logging and metrics: tables and queues are sequences in memory, outcomes of calls are parameters. An unreadable stored queue, and the guards for code that runs without a window, are left out.
- The database variants of `getChain`, `save` and `softDelete`, listing, counting and pagination of parts.
- The API handlers that also create invoice sync records and payment sync records.
- Negative attempt counts and the fields of a row that no modelled code reads or writes (amounts, customer, payment method).
- `extractAssets` and the other extractors of the export script, and writing to disk.
- `normalizeCsvHeader` and `downloadCsv`.
- The subscriber registry of the in-process event bus, and every HTTP route, Lambda entry, page and component.
