/** Repeated deliveries, retried handlers and crashes: still one invoice sync per completed work order. */
module EffectivelyOnce {
  import opened Options
  import OutboxDrain
  import DrainRuns
  import DrainOverlap
  import opened Worker
  import opened InvoiceQueue

  /** What one attempt of a delivery meets: where it throws, and the id `randomUUID` gives it. */
  datatype Attempt = Attempt(fault: Fault, uuid: string)

  /** A delivery of an event to the worker, or anything else that happens to the tables meanwhile. */
  datatype Step = Delivery(event: OutboxDrain.Envelope, attempts: nat -> Attempt) | Elsewhere

  /** How a payload yields a work order id; JSON decoding is left open. */
  type Decoder = string -> Option<string>

  const EVENT := "work_order.completed"

  ghost function HandlerFor(payloadId: Option<string>, correlationId: string, attempts: nat -> Attempt): Handler<Db> {
    (db: Db, n: nat) =>
      var (after, result) := QueueInvoice(db, payloadId, correlationId, attempts(n).uuid, attempts(n).fault);
      (after, if result.Threw? then Some(result.error) else None)
  }

  ghost function Deliver(
    db: Db, event: OutboxDrain.Envelope, attempts: nat -> Attempt, decode: Decoder, maxRetries: int): (Db, Outcome)
  {
    if event.name != EVENT then (db, Unhandled)
    else RetryFrom(HandlerFor(decode(event.payload), event.correlationId, attempts), maxRetries, db, 0)
  }

  /** Other parts of the system move sync records from state to state; they bring no cancelled record back. */
  ghost predicate MovedElsewhere(before: Db, after: Db) {
    && |after.invoices| == |before.invoices|
    && forall i :: 0 <= i < |before.invoices| ==>
      && after.invoices[i].workOrderId == before.invoices[i].workOrderId
      && (before.invoices[i].state.Cancelled? ==> after.invoices[i].state.Cancelled?)
  }

  ghost predicate Next(before: Db, after: Db, step: Step, decode: Decoder, maxRetries: int) {
    match step
    case Delivery(event, attempts) => after == Deliver(before, event, attempts, decode, maxRetries).0
    case Elsewhere => MovedElsewhere(before, after)
  }

  ghost predicate IsRun(dbs: seq<Db>, steps: seq<Step>, decode: Decoder, maxRetries: int) {
    && |dbs| == |steps| + 1
    && forall r :: 0 <= r < |steps| ==> Next(dbs[r], dbs[r + 1], steps[r], decode, maxRetries)
  }

  // ------------------------------------------------------------------ one delivery

  /** What holds between the state before a delivery and any state during or after it. */
  ghost predicate Safely(before: Db, after: Db, payloadId: Option<string>) {
    && AtMostOne(after) && before.invoices <= after.invoices
    && |after.invoices| <= |before.invoices| + 1
    && (after.invoices == before.invoices || (payloadId.Some? && CountActive(after.invoices, payloadId.value) == 1))
    && (payloadId.Some? && CountActive(before.invoices, payloadId.value) == 1 ==> after == before)
    && forall r <- after.invoices[|before.invoices|..] :: payloadId == Some(r.workOrderId) && r.state.Pending?
  }

  lemma {:induction false} AttemptsAreSafe(
    before: Db, payloadId: Option<string>, correlationId: string, attempts: nat -> Attempt, n: nat)
    requires AtMostOne(before)
    ensures Safely(before, AfterAttempts(HandlerFor(payloadId, correlationId, attempts), before, n), payloadId)
  {
    if n > 0 {
      var h := HandlerFor(payloadId, correlationId, attempts);
      AttemptsAreSafe(before, payloadId, correlationId, attempts, n - 1);
      var db := AfterAttempts(h, before, n - 1);
      var a := attempts(n);
      AttemptIsSafe(db, payloadId, correlationId, a.uuid, a.fault);
      var after := QueueInvoice(db, payloadId, correlationId, a.uuid, a.fault).0;
      assert AfterAttempts(h, before, n) == after;
      hide QueueInvoice, AtMostOne, CountActive, AfterAttempts;
      if db.invoices != before.invoices {
        assert after == db;
      }
    }
  }

  /** An attempt that does not throw leaves its work order with exactly one active record. */
  lemma GoodAttemptCounts(
    db: Db, payloadId: Option<string>, correlationId: string, attempts: nat -> Attempt, n: nat)
    requires AtMostOne(db) && n > 0
    ensures var h := HandlerFor(payloadId, correlationId, attempts);
      !Throws(h, db, n) ==>
        payloadId.Some? && CountActive(AfterAttempts(h, db, n).invoices, payloadId.value) == 1
  {
    var h, last := HandlerFor(payloadId, correlationId, attempts), attempts(n);
    AttemptsAreSafe(db, payloadId, correlationId, attempts, n - 1);
    AttemptIsSafe(AfterAttempts(h, db, n - 1), payloadId, correlationId, last.uuid, last.fault);
    hide AtMostOne, CountActive, Safely;
  }

  lemma UntouchedIsSafe(db: Db, payloadId: Option<string>)
    requires AtMostOne(db)
    ensures Safely(db, db, payloadId)
  {
  }

  /**
   * A whole delivery, retries included, adds at most one record; if it succeeds its work order has exactly one active.
   */
  lemma DeliveryIsSafe(
    db: Db, event: OutboxDrain.Envelope, attempts: nat -> Attempt, decode: Decoder, maxRetries: int)
    requires AtMostOne(db)
    ensures var (after, outcome) := Deliver(db, event, attempts, decode, maxRetries);
      && Safely(db, after, decode(event.payload))
      && (outcome.Processed? ==>
        && event.name == "work_order.completed" && decode(event.payload).Some?
        && CountActive(after.invoices, decode(event.payload).value) == 1)
  {
    var payloadId := decode(event.payload);
    var h := HandlerFor(payloadId, event.correlationId, attempts);
    hide HandlerFor, AtMostOne, Safely, CountActive, RetryFrom, AfterAttempts, Throws;
    UntouchedIsSafe(db, payloadId);
    if event.name == EVENT {
      NeverTriedIff(h, maxRetries, db);
      if maxRetries >= 1 {
        var n := RetryMeans(h, maxRetries, db);
        AttemptsAreSafe(db, payloadId, event.correlationId, attempts, n);
        GoodAttemptCounts(db, payloadId, event.correlationId, attempts, n);
      }
    }
  }

  /**
   * A delivery for an existing work order succeeds if one of the allowed attempts meets no fault, whatever the others
   * met.
   */
  lemma DeliverySucceeds(
    db: Db, event: OutboxDrain.Envelope, attempts: nat -> Attempt, decode: Decoder, maxRetries: int, good: nat)
    requires AtMostOne(db) && event.name == EVENT
    requires decode(event.payload).Some? && decode(event.payload).value != ""
    requires decode(event.payload).value in db.workOrders
    requires 1 <= good <= maxRetries && attempts(good).fault.NoFault?
    ensures Deliver(db, event, attempts, decode, maxRetries).1.Processed?
  {
    var h := HandlerFor(decode(event.payload), event.correlationId, attempts);
    var n := RetryMeans(h, maxRetries, db);
    WorkOrdersStay(db, decode(event.payload), event.correlationId, attempts, good - 1);
    assert !Throws(h, db, good);
  }

  lemma {:induction false} WorkOrdersStay(
    db: Db, payloadId: Option<string>, correlationId: string, attempts: nat -> Attempt, n: nat)
    ensures AfterAttempts(HandlerFor(payloadId, correlationId, attempts), db, n).workOrders == db.workOrders
  {
    if n > 0 {
      WorkOrdersStay(db, payloadId, correlationId, attempts, n - 1);
      var h := HandlerFor(payloadId, correlationId, attempts);
      var before, a := AfterAttempts(h, db, n - 1), attempts(n);
      assert AfterAttempts(h, db, n) == QueueInvoice(before, payloadId, correlationId, a.uuid, a.fault).0;
    }
  }

  // -------------------------------------------------------------------- whole runs

  lemma {:induction false} CountFallsElsewhere(a: seq<InvoiceRecord>, b: seq<InvoiceRecord>, workOrderId: string)
    requires |a| == |b| && forall i :: 0 <= i < |a| ==> IsActive(b[i], workOrderId) ==> IsActive(a[i], workOrderId)
    ensures CountActive(b, workOrderId) <= CountActive(a, workOrderId)
  {
    if a != [] {
      CountFallsElsewhere(a[..|a| - 1], b[..|b| - 1], workOrderId);
    }
  }

  lemma NextKeepsInvariant(before: Db, after: Db, step: Step, decode: Decoder, maxRetries: int)
    requires AtMostOne(before) && Next(before, after, step, decode, maxRetries)
    ensures AtMostOne(after)
  {
    match step
    case Delivery(event, attempts) =>
      DeliveryIsSafe(before, event, attempts, decode, maxRetries);
    case Elsewhere =>
      forall workOrderId
        ensures CountActive(after.invoices, workOrderId) <= 1
      {
        CountFallsElsewhere(before.invoices, after.invoices, workOrderId);
      }
  }

  /** However often events are delivered and wherever handlers throw, no work order ever has two active records. */
  lemma {:induction false} AlwaysAtMostOne(dbs: seq<Db>, steps: seq<Step>, decode: Decoder, maxRetries: int, r: nat)
    requires IsRun(dbs, steps, decode, maxRetries) && AtMostOne(dbs[0]) && r < |dbs|
    ensures AtMostOne(dbs[r])
  {
    if r > 0 {
      AlwaysAtMostOne(dbs, steps, decode, maxRetries, r - 1);
      assert Next(dbs[r - 1], dbs[r - 1 + 1], steps[r - 1], decode, maxRetries);
      NextKeepsInvariant(dbs[r - 1], dbs[r], steps[r - 1], decode, maxRetries);
    }
  }

  /** No active record of the work order is cancelled in the step. */
  ghost predicate NotCancelled(before: Db, after: Db, workOrderId: string) {
    forall i :: 0 <= i < |before.invoices| && i < |after.invoices| ==>
      IsActive(before.invoices[i], workOrderId) ==> IsActive(after.invoices[i], workOrderId)
  }

  ghost predicate NeverCancelled(dbs: seq<Db>, workOrderId: string) {
    forall r :: 0 <= r < |dbs| - 1 ==> NotCancelled(dbs[r], dbs[r + 1], workOrderId)
  }

  /** All records of a work order, cancelled ones included. */
  ghost function CountRecords(invoices: seq<InvoiceRecord>, workOrderId: string): nat {
    if invoices == [] then 0
    else
      var last := |invoices| - 1;
      CountRecords(invoices[..last], workOrderId) + if invoices[last].workOrderId == workOrderId then 1 else 0
  }

  lemma {:induction false} SameRecordsElsewhere(a: seq<InvoiceRecord>, b: seq<InvoiceRecord>, workOrderId: string)
    requires |a| == |b| && forall i :: 0 <= i < |a| ==> a[i].workOrderId == b[i].workOrderId
    ensures CountRecords(a, workOrderId) == CountRecords(b, workOrderId)
  {
    if a != [] {
      SameRecordsElsewhere(a[..|a| - 1], b[..|b| - 1], workOrderId);
    }
  }

  lemma OneRecordMore(a: seq<InvoiceRecord>, b: seq<InvoiceRecord>, workOrderId: string)
    requires a <= b && |b| <= |a| + 1
    ensures CountRecords(b, workOrderId) - CountRecords(a, workOrderId)
         == if |b| > |a| && b[|a|].workOrderId == workOrderId then 1 else 0
    ensures CountActive(b, workOrderId) - CountActive(a, workOrderId)
         == if |b| > |a| && IsActive(b[|a|], workOrderId) then 1 else 0
  {
    if |b| > |a| {
      assert b[..|b| - 1] == a;
    } else {
      assert b == a;
    }
  }

  /** In a step that cancels nothing, records of a work order and active ones grow together, and only from none. */
  lemma StepCreatesOnce(before: Db, after: Db, step: Step, decode: Decoder, maxRetries: int, workOrderId: string)
    requires AtMostOne(before) && Next(before, after, step, decode, maxRetries)
    requires NotCancelled(before, after, workOrderId)
    ensures CountRecords(after.invoices, workOrderId) - CountRecords(before.invoices, workOrderId)
         == CountActive(after.invoices, workOrderId) - CountActive(before.invoices, workOrderId)
    ensures CountActive(before.invoices, workOrderId) <= CountActive(after.invoices, workOrderId) <= 1
  {
    NextKeepsInvariant(before, after, step, decode, maxRetries);
    assert CountActive(after.invoices, workOrderId) <= 1;
    match step
    case Delivery(event, attempts) =>
      DeliveryIsSafe(before, event, attempts, decode, maxRetries);
      hide Deliver, AtMostOne, CountActive, CountRecords;
      OneRecordMore(before.invoices, after.invoices, workOrderId);
      if |after.invoices| > |before.invoices| {
        assert after.invoices[|before.invoices|] in after.invoices[|before.invoices|..];
      }
    case Elsewhere =>
      SameRecordsElsewhere(before.invoices, after.invoices, workOrderId);
      CountFallsElsewhere(after.invoices, before.invoices, workOrderId);
      CountFallsElsewhere(before.invoices, after.invoices, workOrderId);
  }

  /**
   * Over a run that cancels no active record of it, a work order gains a record only by gaining its one active record.
   */
  lemma {:induction false} RunCreatesOnce(
    dbs: seq<Db>, steps: seq<Step>, decode: Decoder, maxRetries: int, workOrderId: string, q: nat, r: nat)
    requires IsRun(dbs, steps, decode, maxRetries) && AtMostOne(dbs[0]) && NeverCancelled(dbs, workOrderId)
    requires q <= r < |dbs|
    ensures CountRecords(dbs[r].invoices, workOrderId) - CountRecords(dbs[q].invoices, workOrderId)
         == CountActive(dbs[r].invoices, workOrderId) - CountActive(dbs[q].invoices, workOrderId)
    ensures CountActive(dbs[q].invoices, workOrderId) <= CountActive(dbs[r].invoices, workOrderId) <= 1
    decreases r - q
  {
    AlwaysAtMostOne(dbs, steps, decode, maxRetries, r);
    if q < r {
      RunCreatesOnce(dbs, steps, decode, maxRetries, workOrderId, q, r - 1);
      AlwaysAtMostOne(dbs, steps, decode, maxRetries, r - 1);
      assert Next(dbs[r - 1], dbs[r - 1 + 1], steps[r - 1], decode, maxRetries);
      assert NotCancelled(dbs[r - 1], dbs[r - 1 + 1], workOrderId);
      StepCreatesOnce(dbs[r - 1], dbs[r], steps[r - 1], decode, maxRetries, workOrderId);
    }
  }

  ghost predicate DeliveredWell(dbs: seq<Db>, steps: seq<Step>, decode: Decoder, maxRetries: int, s: nat)
    requires |dbs| == |steps| + 1 && s < |steps|
  {
    steps[s].Delivery? && Deliver(dbs[s], steps[s].event, steps[s].attempts, decode, maxRetries).1.Processed?
  }

  /**
   * Effectively once: after a delivery for a work order has succeeded, the work order has exactly one active record
   * at every later moment, and over the whole run at most one record was created for it, if none was cancelled.
   */
  lemma QueuedExactlyOnce(
    dbs: seq<Db>, steps: seq<Step>, decode: Decoder, maxRetries: int, workOrderId: string, s: nat, r: nat)
    requires IsRun(dbs, steps, decode, maxRetries) && AtMostOne(dbs[0]) && NeverCancelled(dbs, workOrderId)
    requires s < r < |dbs| && DeliveredWell(dbs, steps, decode, maxRetries, s)
    requires decode(steps[s].event.payload) == Some(workOrderId)
    ensures CountActive(dbs[r].invoices, workOrderId) == 1
    ensures CountRecords(dbs[r].invoices, workOrderId)
         == CountRecords(dbs[0].invoices, workOrderId) + 1 - CountActive(dbs[0].invoices, workOrderId)
  {
    AlwaysAtMostOne(dbs, steps, decode, maxRetries, s);
    assert Next(dbs[s], dbs[s + 1], steps[s], decode, maxRetries);
    DeliveryIsSafe(dbs[s], steps[s].event, steps[s].attempts, decode, maxRetries);
    hide Deliver, CountActive, CountRecords, AtMostOne, Next;
    RunCreatesOnce(dbs, steps, decode, maxRetries, workOrderId, s + 1, r);
    RunCreatesOnce(dbs, steps, decode, maxRetries, workOrderId, 0, r);
  }

  // ------------------------------------------------------------- from outbox to invoice

  /** The bus delivers what it took at least once: each taken record's envelope is among the deliveries. */
  ghost predicate BusDelivers(runs: seq<OutboxDrain.Run>, steps: seq<Step>) {
    forall q, k | 0 <= q < |runs| && 0 <= k < runs[q].attempted && k < |runs[q].order| && k < |runs[q].outcomes| ::
      OutboxDrain.Taken(runs[q].outcomes[k]) ==> IsDelivered(OutboxDrain.EnvelopeOf(runs[q].order[k]), steps)
  }

  ghost predicate IsDelivered(event: OutboxDrain.Envelope, steps: seq<Step>) {
    exists s :: 0 <= s < |steps| && steps[s].Delivery? && steps[s].event == event
  }

  /** If the event was delivered at all, one of its deliveries succeeded; others may have failed. */
  ghost predicate HandledWell(
    event: OutboxDrain.Envelope, dbs: seq<Db>, steps: seq<Step>, decode: Decoder, maxRetries: int)
    requires |dbs| == |steps| + 1
  {
    IsDelivered(event, steps) ==>
      exists s | 0 <= s < |steps| ::
        steps[s].Delivery? && steps[s].event == event && DeliveredWell(dbs, steps, decode, maxRetries, s)
  }

  lemma DeliveredIsQueuedOnce(
    event: OutboxDrain.Envelope, dbs: seq<Db>, steps: seq<Step>, decode: Decoder, maxRetries: int,
    workOrderId: string)
    requires IsRun(dbs, steps, decode, maxRetries) && AtMostOne(dbs[0]) && NeverCancelled(dbs, workOrderId)
    requires event.name == EVENT && decode(event.payload) == Some(workOrderId)
    requires IsDelivered(event, steps) && HandledWell(event, dbs, steps, decode, maxRetries)
    ensures |dbs| == |steps| + 1
    ensures CountActive(dbs[|steps|].invoices, workOrderId) == 1
    ensures CountRecords(dbs[|steps|].invoices, workOrderId) <= CountRecords(dbs[0].invoices, workOrderId) + 1
  {
    assert |dbs| == |steps| + 1;
    hide IsRun, AtMostOne, NeverCancelled, DeliveredWell, CountActive, CountRecords;
    var s :| 0 <= s < |steps| && steps[s].Delivery? && steps[s].event == event
      && DeliveredWell(dbs, steps, decode, maxRetries, s);
    QueuedExactlyOnce(dbs, steps, decode, maxRetries, workOrderId, s, |steps|);
  }

  /**
   * End to end: a completed work order whose outbox row ends PUBLISHED, over drain runs that may crash and publish
   * again, has exactly one active invoice record in the end, provided one delivery of its event succeeded.
   */
  lemma PublishedIsQueuedOnce(
    tables: seq<OutboxDrain.Table>, runs: seq<OutboxDrain.Run>, batchSize: nat, i: nat,
    dbs: seq<Db>, steps: seq<Step>, decode: Decoder, maxRetries: int, workOrderId: string)
    requires DrainRuns.IsHistory(tables, runs, batchSize) && i < |tables[0]| == |tables[|runs|]|
    requires tables[0][i].state.Pending? && tables[|runs|][i].state.Published?
    requires tables[0][i].eventName == EVENT && decode(tables[0][i].payload) == Some(workOrderId)
    requires IsRun(dbs, steps, decode, maxRetries) && AtMostOne(dbs[0]) && NeverCancelled(dbs, workOrderId)
    requires BusDelivers(runs, steps)
    requires HandledWell(OutboxDrain.EnvelopeOf(tables[0][i]), dbs, steps, decode, maxRetries)
    ensures CountActive(dbs[|steps|].invoices, workOrderId) == 1
    ensures CountRecords(dbs[|steps|].invoices, workOrderId) <= CountRecords(dbs[0].invoices, workOrderId) + 1
  {
    assert |tables| == |runs| + 1;
    hide DrainRuns.IsHistory, IsRun, AtMostOne, NeverCancelled, HandledWell, CountActive, CountRecords;
    var q, k := DrainRuns.PublishedWasTaken(tables, runs, batchSize, |runs|, i);
    var event := OutboxDrain.EnvelopeOf(tables[0][i]);
    assert IsDelivered(event, steps);
    DeliveredIsQueuedOnce(event, dbs, steps, decode, maxRetries, workOrderId);
  }

  /** The same of drain runs that overlap: what an offer got out is among the deliveries. */
  ghost predicate BusDeliversOffers(
    states: seq<DrainOverlap.State>, actions: seq<DrainOverlap.Action>, steps: seq<Step>)
    requires |states| == |actions| + 1
  {
    forall m | 0 <= m < |actions| && actions[m].Offer? && DrainOverlap.Enabled(states[m], actions[m]) ::
      OutboxDrain.Taken(actions[m].outcome)
      ==> IsDelivered(OutboxDrain.EnvelopeOf(DrainOverlap.OfferedRecord(states[m], actions[m])), steps)
  }

  /**
   * End to end with drain runs that overlap, even if they mark the row FAILED later: once its outbox row was PUBLISHED,
   * the work order has exactly one active invoice record in the end, provided one delivery of its event succeeded.
   */
  lemma EverPublishedIsQueuedOnce(
    states: seq<DrainOverlap.State>, actions: seq<DrainOverlap.Action>, j: nat, i: nat,
    dbs: seq<Db>, steps: seq<Step>, decode: Decoder, maxRetries: int, workOrderId: string)
    requires DrainOverlap.IsRun(states, actions) && j < |states| && i < |states[0].rows| == |states[j].rows|
    requires var row := states[0].rows[i];
      && !row.state.Published? && states[j].rows[i].state.Published?
      && row.eventName == EVENT && decode(row.payload) == Some(workOrderId)
    requires IsRun(dbs, steps, decode, maxRetries) && AtMostOne(dbs[0]) && NeverCancelled(dbs, workOrderId)
    requires BusDeliversOffers(states, actions, steps)
    requires HandledWell(OutboxDrain.EnvelopeOf(states[0].rows[i]), dbs, steps, decode, maxRetries)
    ensures CountActive(dbs[|steps|].invoices, workOrderId) == 1
    ensures CountRecords(dbs[|steps|].invoices, workOrderId) <= CountRecords(dbs[0].invoices, workOrderId) + 1
  {
    hide DrainOverlap.IsRun, DrainOverlap.Enabled, IsRun, AtMostOne, NeverCancelled, HandledWell, IsDelivered;
    hide CountActive, CountRecords;
    var m := DrainOverlap.PublishedWasOffered(states, actions, j, i);
    DeliveredIsQueuedOnce(
      OutboxDrain.EnvelopeOf(states[0].rows[i]), dbs, steps, decode, maxRetries, workOrderId);
  }
}
