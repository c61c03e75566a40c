/** Queuing a QuickBooks invoice sync for a completed work order: find the sync record, or create it. */
module InvoiceQueue {
  import opened Options

  datatype InvoiceState = Pending | InProgress | Synced | Failed | Cancelled

  datatype InvoiceRecord = InvoiceRecord(
    id: string, invoiceNumber: string, workOrderId: string, state: InvoiceState, attemptCount: nat,
    correlationId: string)

  /** The sync records, and the number of each work order by its id. */
  datatype Db = Db(invoices: seq<InvoiceRecord>, workOrders: map<string, string>)

  /**
   * Where an attempt throws, if it does: around any of the three database calls, the last one also after it took
   * effect.
   */
  datatype Fault = NoFault | LookupFails | WorkOrderLookupFails | CreateFails | AfterCreateFails

  datatype QueueResult = Queued(recordId: string) | Skipped(existingId: string) | Threw(error: string)

  predicate IsActive(r: InvoiceRecord, workOrderId: string) {
    r.workOrderId == workOrderId && !r.state.Cancelled?
  }

  function FindActive(invoices: seq<InvoiceRecord>, workOrderId: string): (found: Option<InvoiceRecord>)
    ensures found.Some? ==> found.value in invoices && IsActive(found.value, workOrderId)
    ensures found.None? ==> forall r <- invoices :: !IsActive(r, workOrderId)
  {
    if invoices == [] then None
    else if IsActive(invoices[0], workOrderId) then Some(invoices[0])
    else FindActive(invoices[1..], workOrderId)
  }

  function NewRecord(db: Db, workOrderId: string, uuid: string, correlationId: string): InvoiceRecord
    requires workOrderId in db.workOrders
  {
    InvoiceRecord(uuid, "INV-" + db.workOrders[workOrderId], workOrderId, Pending, 0, correlationId)
  }

  /** One attempt: what it leaves in the database and how it ends. An empty id counts as missing. */
  function QueueInvoice(
    db: Db, payloadId: Option<string>, correlationId: string, uuid: string, fault: Fault): (Db, QueueResult)
  {
    if payloadId.None? || payloadId.value == "" then (db, Threw("work_order.completed payload must include id"))
    else if fault.LookupFails? then (db, Threw("database"))
    else
      var workOrderId := payloadId.value;
      var existing := FindActive(db.invoices, workOrderId);
      if existing.Some? then (db, Skipped(existing.value.id))
      else if fault.WorkOrderLookupFails? then (db, Threw("database"))
      else if workOrderId !in db.workOrders then (db, Threw("Work order not found: " + workOrderId))
      else if fault.CreateFails? then (db, Threw("database"))
      else
        var record := NewRecord(db, workOrderId, uuid, correlationId);
        var after := db.(invoices := db.invoices + [record]);
        if fault.AfterCreateFails? then (after, Threw("after create")) else (after, Queued(record.id))
  }

  class AccountingTables {
    var invoices: seq<InvoiceRecord>
    var workOrders: map<string, string>

    method HandleWorkOrderCompletedForQb(payloadId: Option<string>, correlationId: string, uuid: string, fault: Fault)
      returns (result: QueueResult)
      modifies this`invoices
      ensures (Db(invoices, workOrders), result)
           == QueueInvoice(Db(old(invoices), workOrders), payloadId, correlationId, uuid, fault)
    {
      if payloadId.None? || payloadId.value == "" {
        return Threw("work_order.completed payload must include id");
      }
      var workOrderId := payloadId.value;
      if fault.LookupFails? {
        return Threw("database");
      }
      var existing := FindActive(invoices, workOrderId);
      if existing.Some? {
        return Skipped(existing.value.id);
      }
      if fault.WorkOrderLookupFails? {
        return Threw("database");
      }
      if workOrderId !in workOrders {
        return Threw("Work order not found: " + workOrderId);
      }
      if fault.CreateFails? {
        return Threw("database");
      }
      var invoiceNumber := "INV-" + workOrders[workOrderId];
      var record := InvoiceRecord(uuid, invoiceNumber, workOrderId, Pending, 0, correlationId);
      invoices := invoices + [record];
      if fault.AfterCreateFails? {
        return Threw("after create");
      }
      return Queued(record.id);
    }
  }

  // ------------------------------------------------------------------- one attempt

  function CountActive(invoices: seq<InvoiceRecord>, workOrderId: string): nat {
    if invoices == [] then 0
    else
      var last := |invoices| - 1;
      CountActive(invoices[..last], workOrderId) + if IsActive(invoices[last], workOrderId) then 1 else 0
  }

  /** The invariant: no work order has two sync records that are not cancelled. */
  ghost predicate AtMostOne(db: Db) {
    forall workOrderId :: CountActive(db.invoices, workOrderId) <= 1
  }

  lemma {:induction false} CountZero(invoices: seq<InvoiceRecord>, workOrderId: string)
    ensures CountActive(invoices, workOrderId) == 0 <==> forall r <- invoices :: !IsActive(r, workOrderId)
  {
    if invoices != [] {
      var last := |invoices| - 1;
      CountZero(invoices[..last], workOrderId);
      assert invoices == invoices[..last] + [invoices[last]];
    }
  }

  lemma CountSnoc(invoices: seq<InvoiceRecord>, r: InvoiceRecord, workOrderId: string)
    ensures CountActive(invoices + [r], workOrderId)
         == CountActive(invoices, workOrderId) + if IsActive(r, workOrderId) then 1 else 0
  {
    assert (invoices + [r])[..|invoices|] == invoices;
  }

  /** A record of the work order that is not cancelled, by the fields. */
  ghost predicate Queues(r: InvoiceRecord, workOrderId: string) {
    r.workOrderId == workOrderId && r.state != Cancelled
  }

  /** By the fields: two records that are not cancelled are never of one work order. */
  lemma AtMostOneByFields(db: Db)
    requires AtMostOne(db)
    ensures forall i, j, w | 0 <= i < j < |db.invoices| ::
      Queues(db.invoices[i], w) ==> !Queues(db.invoices[j], w)
  {
    forall i, j, w | 0 <= i < j < |db.invoices| && Queues(db.invoices[i], w)
      ensures !Queues(db.invoices[j], w)
    {
      TwoAreCounted(db.invoices, i, j, w);
    }
  }

  lemma {:induction false} TwoAreCounted(invoices: seq<InvoiceRecord>, i: nat, j: nat, workOrderId: string)
    requires i < j < |invoices| && Queues(invoices[i], workOrderId)
    ensures CountActive(invoices, workOrderId) >= 1
    ensures Queues(invoices[j], workOrderId) ==> CountActive(invoices, workOrderId) >= 2
  {
    var front := invoices[..|invoices| - 1];
    if j < |front| {
      TwoAreCounted(front, i, j, workOrderId);
    } else {
      CountZero(front, workOrderId);
      assert front[i] in front;
    }
  }

  /**
   * How an attempt ends, by the fields. It queues one record with the work order's number if nothing throws, the work
   * order is there and has no record that is not cancelled; it skips with the id of such a record if there is one.
   */
  lemma QueueByFields(db: Db, payloadId: Option<string>, correlationId: string, uuid: string, fault: Fault)
    ensures var (after, result) := QueueInvoice(db, payloadId, correlationId, uuid, fault);
      var w := if payloadId.Some? then payloadId.value else "";
      var queued := exists r <- db.invoices :: Queues(r, w);
      && (result.Skipped? <==> w != "" && !fault.LookupFails? && queued)
      && (result.Skipped? ==> after == db && exists r <- db.invoices :: Queues(r, w) && r.id == result.existingId)
      && (result.Queued? <==> w != "" && fault.NoFault? && !queued && w in db.workOrders)
      && (result.Queued? ==>
        && result.recordId == uuid && after.workOrders == db.workOrders
        && after.invoices == db.invoices + [
          InvoiceRecord(uuid, "INV-" + db.workOrders[w], w, Pending, 0, correlationId)])
      && (w == "" ==> result == Threw("work_order.completed payload must include id"))
      && (w != "" && fault.NoFault? && !queued && w !in db.workOrders ==>
        after == db && result == Threw("Work order not found: " + w))
  {
    var w := if payloadId.Some? then payloadId.value else "";
    var existing := FindActive(db.invoices, w);
    assert forall r :: IsActive(r, w) <==> Queues(r, w);
    hide FindActive;
  }

  /**
   * One attempt, wherever it throws: it keeps the invariant; it appends at most one record, and none if its work
   * order has an active one; if it returns, its work order has exactly one active record.
   */
  lemma AttemptIsSafe(db: Db, payloadId: Option<string>, correlationId: string, uuid: string, fault: Fault)
    requires AtMostOne(db)
    ensures var (after, result) := QueueInvoice(db, payloadId, correlationId, uuid, fault);
      && AtMostOne(after) && after.workOrders == db.workOrders
      && db.invoices <= after.invoices && |after.invoices| <= |db.invoices| + 1
      && (payloadId.Some? && CountActive(db.invoices, payloadId.value) == 1 ==> after == db)
      && (!result.Threw? ==> payloadId.Some? && CountActive(after.invoices, payloadId.value) == 1)
      && forall r <- after.invoices[|db.invoices|..] :: payloadId == Some(r.workOrderId) && r.state.Pending?
  {
    var (after, result) := QueueInvoice(db, payloadId, correlationId, uuid, fault);
    if payloadId.Some? {
      FoundCounts(db, payloadId.value);
      if after != db {
        CreatingKeeps(db, NewRecord(db, payloadId.value, uuid, correlationId));
      }
    }
    hide AtMostOne, CountActive, FindActive;
  }

  lemma FoundCounts(db: Db, workOrderId: string)
    requires AtMostOne(db)
    ensures CountActive(db.invoices, workOrderId) == if FindActive(db.invoices, workOrderId).Some? then 1 else 0
  {
    CountZero(db.invoices, workOrderId);
    assert CountActive(db.invoices, workOrderId) <= 1;
  }

  lemma CreatingKeeps(db: Db, r: InvoiceRecord)
    requires AtMostOne(db) && CountActive(db.invoices, r.workOrderId) == 0 && r.state.Pending?
    ensures AtMostOne(db.(invoices := db.invoices + [r]))
    ensures CountActive(db.invoices + [r], r.workOrderId) == 1
  {
    forall workOrderId
      ensures CountActive(db.invoices + [r], workOrderId) <= 1
    {
      CountSnoc(db.invoices, r, workOrderId);
    }
    CountSnoc(db.invoices, r, r.workOrderId);
  }
}
