/** The in-memory outbox: records that are appended as PENDING and finalized once. */
module Outbox {
  import opened Options

  datatype OutboxState = Pending | Published | Failed

  datatype OutboxRecord = OutboxRecord(
    id: string, name: string, correlationId: string, payload: string, state: OutboxState, emittedAt: string,
    publishedAt: Option<string>, failedAt: Option<string>, failureReason: Option<string>)

  /** What `updateState` does: it returns the new record, or throws for one of two reasons. */
  datatype UpdateResult = Updated(record: OutboxRecord) | NotFound | AlreadyFinalized(state: OutboxState)

  /** The index of the first record with an id. */
  function FindIndex(records: seq<OutboxRecord>, id: string, from: nat := 0): (index: Option<nat>)
    requires from <= |records|
    ensures index.Some? ==> from <= index.value < |records| && records[index.value].id == id
    ensures forall k :: from <= k < (if index.Some? then index.value else |records|) ==> records[k].id != id
    decreases |records| - from
  {
    if from == |records| then None
    else if records[from].id == id then Some(from)
    else FindIndex(records, id, from + 1)
  }

  function Finalize(
    existing: OutboxRecord, state: OutboxState, updatedAt: string, reason: Option<string>): OutboxRecord
  {
    existing.(
      state := state,
      publishedAt := if state.Published? then Some(updatedAt) else None,
      failedAt := if state.Failed? then Some(updatedAt) else None,
      failureReason := if state.Failed? then reason else None)
  }

  function UpdateOutcome(
    records: seq<OutboxRecord>, id: string, state: OutboxState, updatedAt: string, reason: Option<string>): UpdateResult
  {
    match FindIndex(records, id)
    case None => NotFound
    case Some(k) =>
      if !records[k].state.Pending? then AlreadyFinalized(records[k].state)
      else Updated(Finalize(records[k], state, updatedAt, reason))
  }

  /** The records afterwards: changed only if the update succeeds. */
  function UpdateRecords(
    records: seq<OutboxRecord>, id: string, state: OutboxState, updatedAt: string, reason: Option<string>)
    : seq<OutboxRecord>
  {
    match UpdateOutcome(records, id, state, updatedAt, reason)
    case Updated(next) => records[FindIndex(records, id).value := next]
    case _ => records
  }

  class InMemoryOutbox {
    var records: seq<OutboxRecord>

    constructor ()
      ensures records == []
    {
      records := [];
    }

    method Append(record: OutboxRecord) returns (appended: OutboxRecord)
      modifies this
      ensures records == old(records) + [record] && appended == record
    {
      records := records + [record];
      appended := record;
    }

    method UpdateState(id: string, state: OutboxState, updatedAt: string, reason: Option<string>)
      returns (result: UpdateResult)
      requires !state.Pending?
      modifies this
      ensures result == UpdateOutcome(old(records), id, state, updatedAt, reason)
      ensures records == UpdateRecords(old(records), id, state, updatedAt, reason)
    {
      var index := FindIndex(records, id);
      if index.None? {
        return NotFound;
      }
      var existing := records[index.value];
      if !existing.state.Pending? {
        return AlreadyFinalized(existing.state);
      }
      var next := Finalize(existing, state, updatedAt, reason);
      records := records[index.value := next];
      return Updated(next);
    }
  }

  /** The record that an id stands for: the first one with it. */
  ghost predicate IsFirst(records: seq<OutboxRecord>, id: string, k: nat) {
    k < |records| && records[k].id == id && forall j :: 0 <= j < k ==> records[j].id != id
  }

  /** The two errors and success, each exactly when, by the first record with the id, which success replaces. */
  lemma UpdateMeans(
    records: seq<OutboxRecord>, id: string, state: OutboxState, updatedAt: string, reason: Option<string>)
    ensures var outcome := UpdateOutcome(records, id, state, updatedAt, reason);
      var after := UpdateRecords(records, id, state, updatedAt, reason);
      && (outcome.NotFound? <==> forall r <- records :: r.id != id)
      && (!outcome.Updated? ==> after == records)
      && (forall k: nat | IsFirst(records, id, k) ::
        && (outcome.AlreadyFinalized? <==> !records[k].state.Pending?)
        && (outcome.AlreadyFinalized? ==> outcome.state == records[k].state)
        && (outcome.Updated? <==> records[k].state.Pending?)
        && (outcome.Updated? ==>
          && after == records[k := outcome.record]
          && outcome.record == records[k].(
            state := state,
            publishedAt := if state == Published then Some(updatedAt) else None,
            failedAt := if state == Failed then Some(updatedAt) else None,
            failureReason := if state == Failed then reason else None)))
  {
    var index := FindIndex(records, id);
    if index.Some? {
      assert records[index.value] in records;
      assert forall k: nat | IsFirst(records, id, k) :: k == index.value;
    }
  }

  /** A second finalization of a record always throws and changes nothing. */
  lemma FinalizedOnce(records: seq<OutboxRecord>, id: string, first: OutboxState, second: OutboxState,
                      t1: string, t2: string, r1: Option<string>, r2: Option<string>)
    requires !first.Pending? && UpdateOutcome(records, id, first, t1, r1).Updated?
    ensures var after := UpdateRecords(records, id, first, t1, r1);
      && UpdateOutcome(after, id, second, t2, r2) == AlreadyFinalized(first)
      && UpdateRecords(after, id, second, t2, r2) == after
  {
    var after, k := UpdateRecords(records, id, first, t1, r1), FindIndex(records, id).value;
    assert after[k].id == id;
    assert forall j :: 0 <= j < k ==> after[j].id == records[j].id;
    var m := FindIndex(after, id).value;
    assert m == k;
  }

  datatype Event = Event(name: string, correlationId: string, emittedAt: string, payload: string)

  /**
   * How `publishWithOutbox` ends: with the finalized record, with the publisher's error, or with an error of the
   * outbox.
   */
  datatype PublishResult = Returned(record: OutboxRecord) | Rethrown(reason: string) | OutboxThrew(cause: UpdateResult)

  function PendingRecord(id: string, event: Event): OutboxRecord {
    OutboxRecord(id, event.name, event.correlationId, event.payload, Pending, event.emittedAt, None, None, None)
  }

  class InMemoryEventPublisher {
    var published: seq<Event>

    constructor ()
      ensures published == []
    {
      published := [];
    }

    /** The bus takes the event, or throws with a reason. */
    method Publish(event: Event, failure: Option<string>) returns (error: Option<string>)
      modifies this
      ensures error == failure
      ensures published == if failure.None? then old(published) + [event] else old(published)
    {
      error := failure;
      if failure.None? {
        published := published + [event];
      }
    }
  }

  /**
   * One call on its own: with a fresh record id it appends one record and finalizes that one by the publish outcome.
   */
  method PublishWithOutbox(
    publisher: InMemoryEventPublisher, outbox: InMemoryOutbox, event: Event, id: string, now: string,
    failure: Option<string>)
    returns (result: PublishResult)
    modifies publisher, outbox
    ensures publisher.published == old(publisher.published) + if failure.None? then [event] else []
    ensures (forall r <- old(outbox.records) :: r.id != id) ==>
      var ok := failure.None?;
      var record := OutboxRecord(
        id, event.name, event.correlationId, event.payload, if ok then Published else Failed, event.emittedAt,
        if ok then Some(now) else None, if ok then None else Some(now), failure);
      && outbox.records == old(outbox.records) + [record]
      && result == if ok then Returned(record) else Rethrown(failure.value)
    ensures result.OutboxThrew? ==> exists r <- old(outbox.records) :: r.id == id
  {
    ghost var before := outbox.records;
    var pending := outbox.Append(PendingRecord(id, event));
    assert FindIndex(before + [pending], id).Some? by {
      assert (before + [pending])[|before|].id == id;
    }
    var error := publisher.Publish(event, failure);
    if error.Some? {
      var failed := outbox.UpdateState(pending.id, Failed, now, error);
      result := if failed.Updated? then Rethrown(error.value) else OutboxThrew(failed);
    } else {
      var published := outbox.UpdateState(pending.id, Published, now, None);
      result := if published.Updated? then Returned(published.record) else OutboxThrew(published);
    }
  }
}
