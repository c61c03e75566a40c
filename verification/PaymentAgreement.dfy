/** The two payment sync implementations treat one record alike, and take the oldest PENDING record first. */
module PaymentAgreement {
  import opened Options
  import opened PaymentSync

  // ------------------------------------------------------------------- one attempt

  /** The links hold: the invoice, if the payment names one, and the work order are both there. */
  predicate LinksHold(record: PaymentRecord, links: Links) {
    && (HasInvoice(record) ==> record.qbInvoiceId.value in links.invoiceReferences)
    && record.workOrderId in links.workOrders
  }

  /** No database call that a good attempt makes throws. */
  predicate Undisturbed(record: PaymentRecord, trial: Trial) {
    trial.site.Nowhere? || (trial.site.AtInvoiceLookup? && !HasInvoice(record))
  }

  /**
   * How an attempt at a PENDING record ends, in the batch handler and in the webhook job alike: SYNCED if it is good
   * and FAILED if not, unless the update to FAILED is lost; then the state is what the last update to take effect left.
   */
  ghost predicate EndsWell(record: PaymentRecord, after: PaymentRecord, trial: Trial, links: Links) {
    var holds, lost := LinksHold(record, links), trial.marking.MarkLost?;
    var good := holds && Undisturbed(record, trial);
    && (after.state.Synced? <==> good || (holds && trial.site.AfterSynced? && lost))
    && (after.state.Failed? <==> !good && !lost)
    && (after.state.InProgress? <==> !good && lost && !trial.site.AtStart? && !(holds && trial.site.AfterSynced?))
    && (after.state.Pending? <==> lost && trial.site.AtStart?)
    && after.attemptCount == record.attemptCount + (if trial.site.AtStart? then 0 else 1)
    && (after.state.Failed? ==> after.errorMessage.Some?)
    && (after.state.Synced? || after.state.InProgress? ==> after.errorMessage.None?)
    && after.lastAttemptAt == (if trial.site.AtStart? then record.lastAttemptAt else Some(trial.startedAt))
    && (after.state.Synced? || after.state.Failed? ==> after.updatedAt == trial.endedAt)
    && (after.state.InProgress? ==> after.updatedAt == trial.startedAt)
    && (after.id, after.workOrderId, after.qbInvoiceId, after.createdAt)
       == (record.id, record.workOrderId, record.qbInvoiceId, record.createdAt)
  }

  lemma AttemptEndsWell(record: PaymentRecord, trial: Trial, links: Links)
    requires record.state.Pending?
    ensures EndsWell(record, AfterBatch(record, trial, links), trial, links)
    ensures EndsWell(record, AfterWebhook(record, trial, links), trial, links)
  {
    ChecksAlike(record, trial, links);
    hide BatchCheck, WebhookCheck;
  }

  /** The lookups of the two forms throw at the same records: whose links do not hold, or where a lookup fails. */
  lemma ChecksAlike(record: PaymentRecord, trial: Trial, links: Links)
    ensures var found := LinksHold(record, links)
      && !trial.site.AtWorkOrderLookup? && !(trial.site.AtInvoiceLookup? && HasInvoice(record));
      && (BatchCheck(record, trial, links).None? <==> found)
      && (WebhookCheck(record, trial, links).None? <==> found)
  {
  }

  /** The number of the first k records of the order that are SYNCED once they are attempted. */
  ghost function SyncedAmong(records: Records, order: seq<nat>, trials: seq<Trial>, links: Links, k: nat): nat
    requires k <= |order| && k <= |trials| && Places(records, order)
  {
    if k == 0 then 0
    else
      var synced := AfterBatch(records[order[k - 1]], trials[k - 1], links).state == Synced;
      SyncedAmong(records, order, trials, links, k - 1) + if synced then 1 else 0
  }

  /** What a batch without an abort reports as succeeded is the number of records it made SYNCED. */
  lemma {:induction false} CountByRecords(
    records: Records, order: seq<nat>, trials: seq<Trial>, links: Links, k: nat)
    requires k <= |order| && k <= |trials| && IsPendingOrder(records, order)
    requires NoAbortBefore(records, order, trials, links, k)
    ensures CountSynced(records, order, trials, links, k) == SyncedAmong(records, order, trials, links, k)
  {
    if k > 0 {
      CountByRecords(records, order, trials, links, k - 1);
      var record, trial := records[order[k - 1]], trials[k - 1];
      assert order[k - 1] in order && !Aborts(record, trial, links);
      AttemptEndsWell(record, trial, links);
      ThrowAlike(record, trial, links);
      hide TryBatch, TryWebhook;
    }
  }

  /** The two orders of checking throw at the same records: at those whose links do not hold, or that are disturbed. */
  lemma ThrowAlike(record: PaymentRecord, trial: Trial, links: Links)
    ensures BatchError(record, trial, links).None? <==> LinksHold(record, links) && Undisturbed(record, trial)
    ensures WebhookError(record, trial, links).None? <==> LinksHold(record, links) && Undisturbed(record, trial)
  {
    ChecksAlike(record, trial, links);
    hide BatchCheck, WebhookCheck;
  }

  /** The invoice that the record names is there, by the fields; a missing or empty id names none. */
  ghost predicate InvoiceThere(record: PaymentRecord, links: Links) {
    match record.qbInvoiceId
    case None => true
    case Some(id) => id == "" || id in links.invoiceReferences
  }

  /** By the fields: where the database does not fail, both forms end a record SYNCED or FAILED by its two links. */
  lemma EndsByFields(record: PaymentRecord, trial: Trial, links: Links)
    requires record.state.Pending? && trial.site.Nowhere? && trial.marking.Marks?
    ensures var there := InvoiceThere(record, links) && record.workOrderId in links.workOrders;
      && AfterBatch(record, trial, links).state == (if there then Synced else Failed)
      && AfterWebhook(record, trial, links).state == if there then Synced else Failed
  {
    AttemptEndsWell(record, trial, links);
    hide AfterBatch, AfterWebhook;
  }

  /** The error each form leaves: if both links are missing, the batch names the invoice and the webhook the order. */
  lemma ErrorsByFields(record: PaymentRecord, trial: Trial, links: Links)
    requires trial.site.Nowhere? && trial.marking.Marks?
    ensures var (batch, webhook) :=
        (AfterBatch(record, trial, links).errorMessage, AfterWebhook(record, trial, links).errorMessage);
      var order := "Work order not found: " + record.workOrderId;
      && (!InvoiceThere(record, links) ==>
        batch == Some("No invoice sync found for QB invoice: " + record.qbInvoiceId.value))
      && (InvoiceThere(record, links) && record.workOrderId !in links.workOrders ==> batch == Some(order))
      && (record.workOrderId !in links.workOrders ==> webhook == Some(order))
      && (record.workOrderId in links.workOrders && !InvoiceThere(record, links) ==>
        webhook == Some("No invoice sync record found for QB invoice: " + record.qbInvoiceId.value))
  {
  }

  lemma TextsDiffer(a: string, b: string)
    ensures MISSING_IN_BATCH + a != MISSING_IN_WEBHOOK + b
    ensures MISSING_IN_BATCH + a != NO_WORK_ORDER + b
  {
    assert (MISSING_IN_BATCH + a)[16] == 'f' && (MISSING_IN_WEBHOOK + b)[16] == 'r';
    assert (MISSING_IN_BATCH + a)[0] == 'N' && (NO_WORK_ORDER + b)[0] == 'W';
  }

  /** Where the database does not fail, the two say the same exactly when the invoice link holds. */
  lemma SameTextIff(record: PaymentRecord, trial: Trial, links: Links)
    requires trial.site.Nowhere?
    ensures BatchError(record, trial, links) == WebhookError(record, trial, links)
      <==> (HasInvoice(record) ==> record.qbInvoiceId.value in links.invoiceReferences)
  {
    if HasInvoice(record) && record.qbInvoiceId.value !in links.invoiceReferences {
      TextsDiffer(record.qbInvoiceId.value, record.qbInvoiceId.value);
      TextsDiffer(record.qbInvoiceId.value, record.workOrderId);
    }
  }

  // ------------------------------------------------------------------ same but for text

  predicate SameButText(a: PaymentRecord, b: PaymentRecord) {
    a.(errorMessage := None) == b.(errorMessage := None) && (a.errorMessage.Some? <==> b.errorMessage.Some?)
  }

  ghost predicate Same(a: Records, b: Records) {
    |a| == |b| && forall i | 0 <= i < |a| :: SameButText(a[i], b[i])
  }

  lemma AttemptsAlike(a: PaymentRecord, b: PaymentRecord, trial: Trial, links: Links)
    requires SameButText(a, b)
    ensures SameButText(AfterBatch(a, trial, links), AfterBatch(b, trial, links))
    ensures SameButText(AfterBatch(a, trial, links), AfterWebhook(b, trial, links))
  {
    ChecksAlike(a, trial, links);
    ChecksAlike(b, trial, links);
    hide BatchCheck, WebhookCheck;
  }

  // -------------------------------------------------------------- the order is unique

  lemma {:induction false} OrderUnique(records: Records, o: seq<nat>, p: seq<nat>)
    requires InOrder(records, o) && InOrder(records, p) && forall i: nat :: i in o <==> i in p
    ensures o == p
  {
    assert (o == [] || o[0] in o) && (p == [] || p[0] in p);
    if p != [] {
      HeadFirst(records, p, o[0]);
      HeadFirst(records, o, p[0]);
      HeadOnly(records, o);
      HeadOnly(records, p);
      OrderUnique(records, o[1..], p[1..]);
      assert o == [o[0]] + o[1..] && p == [p[0]] + p[1..];
    }
  }

  lemma HeadFirst(records: Records, o: seq<nat>, i: nat)
    requires InOrder(records, o) && i in o
    ensures i < |records| && (i == o[0] || Before(records, o[0], i))
  {
    var a :| 0 <= a < |o| && o[a] == i;
  }

  lemma HeadOnly(records: Records, o: seq<nat>)
    requires InOrder(records, o) && o != []
    ensures forall i: nat :: i in o[1..] <==> i in o && i != o[0]
    ensures InOrder(records, o[1..])
  {
    forall i: nat
      ensures i in o[1..] <==> i in o && i != o[0]
    {
      if i in o[1..] {
        var a :| 0 <= a < |o[1..]| && o[1..][a] == i;
        assert Before(records, o[0], o[a + 1]);
      }
    }
  }

  lemma OrderMeans(records: Records, order: seq<nat>)
    requires IsPendingOrder(records, order)
    ensures order == PendingOrder(records)
  {
    hide PendingOrder, InOrder;
    OrderUnique(records, order, PendingOrder(records));
  }

  lemma SameOrder(a: Records, b: Records)
    requires Same(a, b)
    ensures PendingOrder(a) == PendingOrder(b)
  {
    hide PendingOrder;
    assert IsPendingOrder(b, PendingOrder(a));
    OrderMeans(b, PendingOrder(a));
  }

  // ----------------------------------------------------- oldest, and newest

  /** Created after every other PENDING record. */
  ghost predicate IsNewest(records: Records, i: nat) {
    && i < |records| && records[i].state.Pending?
    && forall j | 0 <= j < |records| && records[j].state.Pending? && j != i ::
      records[j].createdAt < records[i].createdAt
  }

  /** The webhook job takes the oldest PENDING record; it takes the newest exactly when no other record is PENDING. */
  lemma WebhookTakesNewestIff(records: Records)
    requires PendingOrder(records) != []
    ensures IsNewest(records, PendingOrder(records)[0])
       <==> forall j: nat | j < |records| && records[j].state.Pending? :: j == PendingOrder(records)[0]
  {
    var order := PendingOrder(records);
    hide PendingOrder;
    var i := order[0];
    assert i in order;
    if j: nat :| j < |records| && records[j].state.Pending? && j != i {
      HeadFirst(records, order, j);
    }
  }
}
