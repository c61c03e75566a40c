/** Payment sync: the scheduled batch handler and the webhook job, two implementations of one state machine. */
module PaymentSync {
  import opened Options
  import opened Lists

  datatype SyncState = Pending | InProgress | Synced | Failed | Reconciled | Mismatch

  datatype PaymentRecord = PaymentRecord(
    id: string, workOrderId: string, qbInvoiceId: Option<string>, state: SyncState, errorMessage: Option<string>,
    attemptCount: nat, lastAttemptAt: Option<int>, createdAt: int, updatedAt: int)

  /** What the links of a payment are checked against: the external references of the invoices, and the work orders. */
  datatype Links = Links(invoiceReferences: set<string>, workOrders: set<string>)

  /** Where the `try` block throws, if the database makes it: an update may throw before or after it takes effect. */
  datatype Site = Nowhere | AtStart | AfterStart | AtInvoiceLookup | AtWorkOrderLookup | AtSynced | AfterSynced

  /** How the update to FAILED goes, if it comes to that: it may throw too, before or after it takes effect. */
  datatype Marking = Marks | MarkLost | MarkedThenThrows

  /** What one attempt at a record meets: the call that throws, how marking FAILED goes, and the clock. */
  datatype Trial = Trial(site: Site, reason: string, marking: Marking, startedAt: int, endedAt: int)

  const MISSING_IN_BATCH := "No invoice sync found for QB invoice: "
  const MISSING_IN_WEBHOOK := "No invoice sync record found for QB invoice: "
  const NO_WORK_ORDER := "Work order not found: "

  /** An empty id counts as missing. */
  predicate HasInvoice(record: PaymentRecord) {
    record.qbInvoiceId.Some? && record.qbInvoiceId.value != ""
  }

  /** What the lookups of the batch handler throw: it looks at the invoice first. */
  function BatchCheck(record: PaymentRecord, trial: Trial, links: Links): Option<string> {
    if HasInvoice(record) && trial.site.AtInvoiceLookup? then Some(trial.reason)
    else if HasInvoice(record) && record.qbInvoiceId.value !in links.invoiceReferences then
      Some(MISSING_IN_BATCH + record.qbInvoiceId.value)
    else if trial.site.AtWorkOrderLookup? then Some(trial.reason)
    else if record.workOrderId !in links.workOrders then Some(NO_WORK_ORDER + record.workOrderId)
    else None
  }

  /** What those of the webhook job throw: it looks at the work order first, and words one error differently. */
  function WebhookCheck(record: PaymentRecord, trial: Trial, links: Links): Option<string> {
    if trial.site.AtWorkOrderLookup? then Some(trial.reason)
    else if record.workOrderId !in links.workOrders then Some(NO_WORK_ORDER + record.workOrderId)
    else if HasInvoice(record) && trial.site.AtInvoiceLookup? then Some(trial.reason)
    else if HasInvoice(record) && record.qbInvoiceId.value !in links.invoiceReferences then
      Some(MISSING_IN_WEBHOOK + record.qbInvoiceId.value)
    else None
  }

  /** What a `try` block leaves of its record, and what it throws. */
  datatype Tried = Tried(record: PaymentRecord, error: Option<string>)

  function Started(record: PaymentRecord, trial: Trial): PaymentRecord {
    record.(state := InProgress, attemptCount := record.attemptCount + 1, errorMessage := None,
            lastAttemptAt := Some(trial.startedAt), updatedAt := trial.startedAt)
  }

  function TryWith(record: PaymentRecord, trial: Trial, check: Option<string>): Tried {
    var started := Started(record, trial);
    if trial.site.AtStart? then Tried(record, Some(trial.reason))
    else if trial.site.AfterStart? then Tried(started, Some(trial.reason))
    else if check.Some? then Tried(started, check)
    else if trial.site.AtSynced? then Tried(started, Some(trial.reason))
    else
      var synced := started.(state := Synced, updatedAt := trial.endedAt);
      Tried(synced, if trial.site.AfterSynced? then Some(trial.reason) else None)
  }

  function TryBatch(record: PaymentRecord, trial: Trial, links: Links): Tried {
    TryWith(record, trial, BatchCheck(record, trial, links))
  }

  function TryWebhook(record: PaymentRecord, trial: Trial, links: Links): Tried {
    TryWith(record, trial, WebhookCheck(record, trial, links))
  }

  function BatchError(record: PaymentRecord, trial: Trial, links: Links): Option<string> {
    TryBatch(record, trial, links).error
  }

  function WebhookError(record: PaymentRecord, trial: Trial, links: Links): Option<string> {
    TryWebhook(record, trial, links).error
  }

  /** The record after the `catch` block, if the `try` block threw. */
  function Ended(tried: Tried, trial: Trial): PaymentRecord {
    if tried.error.None? || trial.marking.MarkLost? then tried.record
    else tried.record.(state := Failed, errorMessage := tried.error, updatedAt := trial.endedAt)
  }

  function AfterBatch(record: PaymentRecord, trial: Trial, links: Links): PaymentRecord {
    Ended(TryBatch(record, trial, links), trial)
  }

  function AfterWebhook(record: PaymentRecord, trial: Trial, links: Links): PaymentRecord {
    Ended(TryWebhook(record, trial, links), trial)
  }

  // ------------------------------------------------------- the oldest PENDING records

  type Records = seq<PaymentRecord>

  ghost predicate DistinctIds(records: Records) {
    forall i, j :: 0 <= i < j < |records| ==> records[i].id != records[j].id
  }

  /** Older first; the table's own order between records of the same age. */
  predicate Before(records: Records, i: nat, j: nat)
    requires i < |records| && j < |records|
  {
    records[i].createdAt < records[j].createdAt || (records[i].createdAt == records[j].createdAt && i < j)
  }

  ghost predicate Places(records: Records, order: seq<nat>) {
    forall a :: 0 <= a < |order| ==> order[a] < |records|
  }

  ghost predicate InOrder(records: Records, order: seq<nat>) {
    && Places(records, order)
    && forall a, b :: 0 <= a < b < |order| ==> Before(records, order[a], order[b])
  }

  /** The places of the PENDING records, oldest first. */
  ghost predicate IsPendingOrder(records: Records, order: seq<nat>) {
    && InOrder(records, order)
    && forall i: nat :: i in order <==> i < |records| && records[i].state.Pending?
  }

  function Insert(records: Records, i: nat, order: seq<nat>): seq<nat>
    requires i < |records| && Places(records, order)
  {
    if order == [] || Before(records, order[|order| - 1], i) then order + [i]
    else Insert(records, i, order[..|order| - 1]) + [order[|order| - 1]]
  }

  function PendingAmong(records: Records, n: nat): (order: seq<nat>)
    requires n <= |records|
    ensures IsPendingAmong(records, n, order)
  {
    if n == 0 then []
    else
      var front := PendingAmong(records, n - 1);
      if records[n - 1].state.Pending? then
        InsertKeepsOrder(records, n - 1, front);
        Insert(records, n - 1, front)
      else front
  }

  function PendingOrder(records: Records): (order: seq<nat>)
    ensures IsPendingOrder(records, order)
  {
    PendingAmong(records, |records|)
  }

  ghost predicate IsPendingAmong(records: Records, n: nat, order: seq<nat>)
    requires n <= |records|
  {
    InOrder(records, order) && forall i: nat :: i in order <==> i < n && records[i].state.Pending?
  }

  lemma {:induction false} InsertKeepsOrder(records: Records, i: nat, order: seq<nat>)
    requires i < |records| && InOrder(records, order) && i !in order
    ensures InOrder(records, Insert(records, i, order))
    ensures forall j :: j in Insert(records, i, order) <==> j in order || j == i
  {
    if order != [] && !Before(records, order[|order| - 1], i) {
      var front, last := order[..|order| - 1], order[|order| - 1];
      assert order == front + [last];
      InsertKeepsOrder(records, i, front);
      var t := Insert(records, i, front);
      forall a | 0 <= a < |t|
        ensures Before(records, t[a], last)
      {
        assert t[a] in t;
      }
    }
  }

  // ------------------------------------------------------------------ what runs leave

  /** The table after the first k records of the order have been attempted by the batch handler. */
  function AttemptFirst(records: Records, order: seq<nat>, trials: seq<Trial>, links: Links, k: nat): (after: Records)
    requires k <= |order| && k <= |trials| && Places(records, order)
    ensures |after| == |records|
  {
    if k == 0 then records
    else
      var i := order[k - 1];
      AttemptFirst(records, order, trials, links, k - 1)[i := AfterBatch(records[i], trials[k - 1], links)]
  }

  /** The attempt that ends the run with an exception: it throws, and so does marking the record FAILED. */
  predicate Aborts(record: PaymentRecord, trial: Trial, links: Links) {
    !trial.marking.Marks? && BatchError(record, trial, links).Some?
  }

  /** How many records a batch attempts, from record k on: it stops after the first attempt that aborts. */
  function AttemptsFrom(records: Records, order: seq<nat>, trials: seq<Trial>, links: Links, k: nat): (m: nat)
    requires k <= |order| && k <= |trials| && Places(records, order)
    ensures k <= m <= Min(|trials|, |order|)
    decreases |order| - k
  {
    if k == |order| || k == |trials| then k
    else if Aborts(records[order[k]], trials[k], links) then k + 1
    else AttemptsFrom(records, order, trials, links, k + 1)
  }

  function Attempts(records: Records, trials: seq<Trial>, links: Links): (m: nat)
    ensures m <= Min(|trials|, |PendingOrder(records)|)
  {
    AttemptsFrom(records, PendingOrder(records), trials, links, 0)
  }

  /** The table after a batch with one trial for each record of its size. */
  function BatchRecords(records: Records, trials: seq<Trial>, links: Links): Records {
    AttemptFirst(records, PendingOrder(records), trials, links, Attempts(records, trials, links))
  }

  function WebhookRecords(records: Records, trial: Trial, links: Links): Records {
    var order := PendingOrder(records);
    if order == [] then records else records[order[0] := AfterWebhook(records[order[0]], trial, links)]
  }

  function CountSynced(records: Records, order: seq<nat>, trials: seq<Trial>, links: Links, k: nat): nat
    requires k <= |order| && k <= |trials| && Places(records, order)
  {
    if k == 0 then 0
    else
      var synced := BatchError(records[order[k - 1]], trials[k - 1], links).None?;
      CountSynced(records, order, trials, links, k - 1) + if synced then 1 else 0
  }

  ghost predicate NoAbortBefore(records: Records, order: seq<nat>, trials: seq<Trial>, links: Links, k: nat)
    requires k <= |order| && k <= |trials| && Places(records, order)
  {
    forall j | 0 <= j < k :: !Aborts(records[order[j]], trials[j], links)
  }

  datatype BatchResult = Completed(processed: nat, succeeded: nat, failed: nat) | Aborted

  datatype WebhookResult =
    | Processed(paymentSyncId: string)
    | Skipped
    | FailedWith(paymentSyncId: string, error: string)
    | Threw(reason: string)

  const DEFAULT_BATCH_SIZE: nat := 10

  function SizeOf(batchSize: Option<nat>): (size: nat)
    ensures batchSize == None ==> size == 10
    ensures batchSize == Some(size) || batchSize == None
  {
    if batchSize.Some? then batchSize.value else DEFAULT_BATCH_SIZE
  }

  class PaymentTables {
    var records: Records
    const links: Links

    constructor (records: Records, links: Links)
      ensures this.records == records && this.links == links
    {
      this.records := records;
      this.links := links;
    }

    method FindPending(take: nat) returns (batch: Records)
      ensures var order := PendingOrder(records);
        |batch| == Min(take, |order|) && forall k :: 0 <= k < |batch| ==> batch[k] == records[order[k]]
    {
      var order := PendingOrder(records);
      var rows := records;
      batch := seq(Min(take, |order|), k requires 0 <= k < Min(take, |order|) => rows[order[k]]);
    }

    method Start(id: string, attemptCount: nat, now: int, ghost i: nat)
      requires DistinctIds(records) && i < |records| && records[i].id == id
      modifies this
      ensures records == old(records)[i := old(records)[i].(
        state := InProgress, attemptCount := attemptCount, errorMessage := None, lastAttemptAt := Some(now),
        updatedAt := now)]
    {
      records := seq(|records|, j requires 0 <= j < |records| reads this =>
        if records[j].id != id then records[j]
        else records[j].(
          state := InProgress, attemptCount := attemptCount, errorMessage := None, lastAttemptAt := Some(now),
          updatedAt := now));
    }

    method MarkSynced(id: string, now: int, ghost i: nat)
      requires DistinctIds(records) && i < |records| && records[i].id == id
      modifies this
      ensures records == old(records)[i := old(records)[i].(state := Synced, updatedAt := now)]
    {
      records := seq(|records|, j requires 0 <= j < |records| reads this =>
        if records[j].id != id then records[j] else records[j].(state := Synced, updatedAt := now));
    }

    method MarkFailed(id: string, error: string, now: int, ghost i: nat)
      requires DistinctIds(records) && i < |records| && records[i].id == id
      modifies this
      ensures records == old(records)[i := old(records)[i].(
        state := Failed, errorMessage := Some(error), updatedAt := now)]
    {
      records := seq(|records|, j requires 0 <= j < |records| reads this =>
        if records[j].id != id then records[j]
        else records[j].(state := Failed, errorMessage := Some(error), updatedAt := now));
    }

    /** The batch handler's `try` block: what it throws, if anything. */
    method TryInBatch(record: PaymentRecord, trial: Trial, ghost i: nat) returns (error: Option<string>)
      requires DistinctIds(records) && i < |records| && records[i] == record
      modifies this
      ensures error == BatchError(record, trial, links)
      ensures records == old(records)[i := TryBatch(record, trial, links).record]
    {
      if trial.site.AtStart? {
        return Some(trial.reason);
      }
      Start(record.id, record.attemptCount + 1, trial.startedAt, i);
      if trial.site.AfterStart? {
        return Some(trial.reason);
      }
      if HasInvoice(record) {
        if trial.site.AtInvoiceLookup? {
          return Some(trial.reason);
        }
        if record.qbInvoiceId.value !in links.invoiceReferences {
          return Some(MISSING_IN_BATCH + record.qbInvoiceId.value);
        }
      }
      if trial.site.AtWorkOrderLookup? {
        return Some(trial.reason);
      }
      if record.workOrderId !in links.workOrders {
        return Some(NO_WORK_ORDER + record.workOrderId);
      }
      if trial.site.AtSynced? {
        return Some(trial.reason);
      }
      MarkSynced(record.id, trial.endedAt, i);
      if trial.site.AfterSynced? {
        return Some(trial.reason);
      }
      return None;
    }

    /** The webhook job's `try` block. */
    method TryInWebhook(record: PaymentRecord, trial: Trial, ghost i: nat) returns (error: Option<string>)
      requires DistinctIds(records) && i < |records| && records[i] == record
      modifies this
      ensures error == WebhookError(record, trial, links)
      ensures records == old(records)[i := TryWebhook(record, trial, links).record]
    {
      if trial.site.AtStart? {
        return Some(trial.reason);
      }
      Start(record.id, record.attemptCount + 1, trial.startedAt, i);
      if trial.site.AfterStart? {
        return Some(trial.reason);
      }
      if trial.site.AtWorkOrderLookup? {
        return Some(trial.reason);
      }
      if record.workOrderId !in links.workOrders {
        return Some(NO_WORK_ORDER + record.workOrderId);
      }
      if HasInvoice(record) {
        if trial.site.AtInvoiceLookup? {
          return Some(trial.reason);
        }
        if record.qbInvoiceId.value !in links.invoiceReferences {
          return Some(MISSING_IN_WEBHOOK + record.qbInvoiceId.value);
        }
      }
      if trial.site.AtSynced? {
        return Some(trial.reason);
      }
      MarkSynced(record.id, trial.endedAt, i);
      if trial.site.AfterSynced? {
        return Some(trial.reason);
      }
      return None;
    }

    /**
     * The scheduled batch. It attempts the oldest PENDING records one by one; a completed run has attempted
     * min(batchSize, pending) of them, and one that aborts stops at the first record that throws twice.
     */
    method Handler(batchSize: Option<nat>, trials: seq<Trial>) returns (result: BatchResult, ghost attempted: nat)
      requires DistinctIds(records) && SizeOf(batchSize) == |trials|
      modifies this
      ensures records == BatchRecords(old(records), trials, links)
      ensures var before, order := old(records), PendingOrder(old(records));
        && attempted == Attempts(before, trials, links)
        && (result.Completed? ==>
          && attempted == Min(|trials|, |order|) && NoAbortBefore(before, order, trials, links, attempted)
          && result.processed == attempted == result.succeeded + result.failed
          && result.succeeded == CountSynced(before, order, trials, links, attempted))
        && (result.Aborted? ==> attempted > 0 && Aborts(before[order[attempted - 1]], trials[attempted - 1], links))
    {
      ghost var before, order := records, PendingOrder(records);
      var pending := FindPending(SizeOf(batchSize));
      var processed, succeeded, failed := 0, 0, 0;
      assert InOrder(before, order) && Places(before, order);
      assert |pending| == Min(|trials|, |order|) && |pending| <= |order| && |pending| <= |trials|;
      hide *;
      NothingAttempted(before, order, trials, links);
      for k := 0 to |pending|
        invariant records == AttemptFirst(before, order, trials, links, k)
        invariant NoAbortBefore(before, order, trials, links, k)
        invariant succeeded == CountSynced(before, order, trials, links, k) && processed == succeeded + failed == k
      {
        var record, trial := pending[k], trials[k];
        ghost var i := order[k];
        NextAttempt(before, order, trials, links, k);
        attempted := k + 1;
        processed := processed + 1;
        var error := TryInBatch(record, trial, i);
        AttemptEnds(record, trial, links);
        if error.None? {
          succeeded := succeeded + 1;
        } else {
          if trial.marking.MarkLost? {
            StopsAt(before, order, trials, links, k + 1);
            return Aborted, attempted;
          }
          MarkFailed(record.id, error.value, trial.endedAt, i);
          if trial.marking.MarkedThenThrows? {
            StopsAt(before, order, trials, links, k + 1);
            return Aborted, attempted;
          }
          failed := failed + 1;
        }
      }
      StopsAt(before, order, trials, links, |pending|);
      return Completed(processed, succeeded, failed), |pending|;
    }

    /** One webhook event: it settles the oldest PENDING record, if there is one. */
    method HandleWebhookReceived(webhookEventId: Option<string>, trial: Trial) returns (result: WebhookResult)
      requires DistinctIds(records)
      modifies this
      ensures var order := PendingOrder(old(records));
        var missing := webhookEventId.None? || webhookEventId.value == "";
        && records == (if missing then old(records) else WebhookRecords(old(records), trial, links))
        && (missing ==> result == Threw("qb.webhook.received payload must include webhookEventId"))
        && (result.Skipped? <==> !missing && order == [])
        && (!missing && order != [] ==>
          var record := old(records)[order[0]];
          var error := WebhookError(record, trial, links);
          result == if error.None? then Processed(record.id)
                    else if trial.marking.Marks? then FailedWith(record.id, error.value) else Threw("database"))
    {
      if webhookEventId.None? || webhookEventId.value == "" {
        return Threw("qb.webhook.received payload must include webhookEventId");
      }
      ghost var order := PendingOrder(records);
      var found := FindPending(1);
      if found == [] {
        return Skipped;
      }
      var record := found[0];
      ghost var i := order[0];
      hide PendingOrder, WebhookError;
      var error := TryInWebhook(record, trial, i);
      if error.None? {
        return Processed(record.id);
      }
      if trial.marking.MarkLost? {
        return Threw("database");
      }
      MarkFailed(record.id, error.value, trial.endedAt, i);
      if trial.marking.MarkedThenThrows? {
        return Threw("database");
      }
      return FailedWith(record.id, error.value);
    }
  }

  // --------------------------------------------------------------- the loop's steps

  lemma NothingAttempted(records: Records, order: seq<nat>, trials: seq<Trial>, links: Links)
    requires Places(records, order)
    ensures AttemptFirst(records, order, trials, links, 0) == records
    ensures CountSynced(records, order, trials, links, 0) == 0 && NoAbortBefore(records, order, trials, links, 0)
  {
  }

  /** What attempting the first k records of the order leaves, record by record. */
  ghost predicate IsAttempted(
    records: Records, after: Records, order: seq<nat>, trials: seq<Trial>, links: Links, k: nat)
    requires k <= |order| && k <= |trials| && Places(records, order) && |after| == |records|
  {
    && (forall i | 0 <= i < |records| && NotAmong(i, order, k) :: after[i] == records[i])
    && (forall j | 0 <= j < k :: after[order[j]] == AfterBatch(records[order[j]], trials[j], links))
  }

  ghost predicate NotAmong(i: nat, order: seq<nat>, k: nat)
    requires k <= |order|
  {
    forall j | 0 <= j < k :: order[j] != i
  }

  lemma {:induction false} AttemptMeans(records: Records, order: seq<nat>, trials: seq<Trial>, links: Links, k: nat)
    requires k <= |order| && k <= |trials| && InOrder(records, order)
    ensures IsAttempted(records, AttemptFirst(records, order, trials, links, k), order, trials, links, k)
  {
    hide Places, Before, IsAttempted, NotAmong, AfterBatch;
    if k == 0 {
      NoneAttempted(records, order, trials, links);
    } else {
      AttemptMeans(records, order, trials, links, k - 1);
      NotAmongEarlier(records, order, k - 1);
      AttemptOneMore(records, AttemptFirst(records, order, trials, links, k - 1), order, trials, links, k - 1);
    }
  }

  lemma NoneAttempted(records: Records, order: seq<nat>, trials: seq<Trial>, links: Links)
    requires Places(records, order)
    ensures IsAttempted(records, records, order, trials, links, 0)
  {
  }

  lemma AttemptOneMore(records: Records, was: Records, order: seq<nat>, trials: seq<Trial>, links: Links, k: nat)
    requires k < |order| && k < |trials| && Places(records, order) && |was| == |records|
    requires IsAttempted(records, was, order, trials, links, k) && NotAmong(order[k], order, k)
    ensures var i := order[k];
      IsAttempted(records, was[i := AfterBatch(records[i], trials[k], links)], order, trials, links, k + 1)
  {
    hide AfterBatch;
  }

  lemma NotAmongEarlier(records: Records, order: seq<nat>, k: nat)
    requires InOrder(records, order) && k < |order|
    ensures NotAmong(order[k], order, k)
  {
    forall j | 0 <= j < k
      ensures order[j] != order[k]
    {
      assert Before(records, order[j], order[k]);
    }
  }

  ghost predicate SameKeys(a: Records, b: Records) {
    |a| == |b| && forall i | 0 <= i < |a| :: a[i].id == b[i].id && a[i].createdAt == b[i].createdAt
  }

  lemma {:induction false} AttemptKeepsKeys(records: Records, order: seq<nat>, trials: seq<Trial>, links: Links, k: nat)
    requires k <= |order| && k <= |trials| && InOrder(records, order)
    ensures SameKeys(records, AttemptFirst(records, order, trials, links, k))
  {
    if k > 0 {
      AttemptKeepsKeys(records, order, trials, links, k - 1);
      hide BatchError;
    }
  }

  lemma NextAttempt(records: Records, order: seq<nat>, trials: seq<Trial>, links: Links, k: nat)
    requires DistinctIds(records) && InOrder(records, order) && k < |order| && k < |trials|
    ensures var after, i := AttemptFirst(records, order, trials, links, k), order[k];
      && DistinctIds(after) && i < |after| == |records| && after[i] == records[i]
      && AttemptFirst(records, order, trials, links, k + 1) == after[i := AfterBatch(records[i], trials[k], links)]
    ensures CountSynced(records, order, trials, links, k + 1) == CountSynced(records, order, trials, links, k)
      + if BatchError(records[order[k]], trials[k], links).None? then 1 else 0
    ensures NoAbortBefore(records, order, trials, links, k) && !Aborts(records[order[k]], trials[k], links)
      ==> NoAbortBefore(records, order, trials, links, k + 1)
  {
    AttemptMeans(records, order, trials, links, k);
    AttemptKeepsKeys(records, order, trials, links, k);
    NotAmongEarlier(records, order, k);
    hide AfterBatch, BatchError, Before;
  }

  /** m is where a batch stops: no attempt before the last aborts, and if the last does not, there is nothing left. */
  ghost predicate IsStop(records: Records, order: seq<nat>, trials: seq<Trial>, links: Links, m: nat)
    requires Places(records, order)
  {
    && m <= Min(|trials|, |order|)
    && (m > 0 ==> NoAbortBefore(records, order, trials, links, m - 1))
    && (m == Min(|trials|, |order|) || (m > 0 && Aborts(records[order[m - 1]], trials[m - 1], links)))
  }

  lemma {:induction false} StopFrom(records: Records, order: seq<nat>, trials: seq<Trial>, links: Links, k: nat)
    requires k <= |order| && k <= |trials| && Places(records, order) && NoAbortBefore(records, order, trials, links, k)
    ensures IsStop(records, order, trials, links, AttemptsFrom(records, order, trials, links, k))
    decreases |order| - k
  {
    hide Aborts;
    if k < |order| && k < |trials| && !Aborts(records[order[k]], trials[k], links) {
      StopFrom(records, order, trials, links, k + 1);
    }
  }

  lemma StopMeans(records: Records, trials: seq<Trial>, links: Links)
    ensures IsStop(records, PendingOrder(records), trials, links, Attempts(records, trials, links))
  {
    StopFrom(records, PendingOrder(records), trials, links, 0);
  }

  lemma StopUnique(records: Records, order: seq<nat>, trials: seq<Trial>, links: Links, m: nat, n: nat)
    requires Places(records, order)
    requires IsStop(records, order, trials, links, m) && IsStop(records, order, trials, links, n)
    ensures m == n
  {
    hide Aborts;
  }

  lemma StopsAt(records: Records, order: seq<nat>, trials: seq<Trial>, links: Links, m: nat)
    requires order == PendingOrder(records) && IsStop(records, order, trials, links, m)
    ensures m == Attempts(records, trials, links)
    ensures BatchRecords(records, trials, links) == AttemptFirst(records, order, trials, links, m)
  {
    StopMeans(records, trials, links);
    StopUnique(records, order, trials, links, m, Attempts(records, trials, links));
  }

  lemma AttemptEnds(record: PaymentRecord, trial: Trial, links: Links)
    ensures var tried := TryBatch(record, trial, links);
      && tried.record.id == record.id && tried.error == BatchError(record, trial, links)
      && Aborts(record, trial, links) == (!trial.marking.Marks? && tried.error.Some?)
      && AfterBatch(record, trial, links)
         == if tried.error.None? || trial.marking.MarkLost? then tried.record
            else tried.record.(
              state := Failed, errorMessage := Some(tried.error.value), updatedAt := trial.endedAt)
  {
    hide BatchCheck;
  }
}
