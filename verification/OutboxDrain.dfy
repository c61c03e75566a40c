/** The batch drainer of the outbox table: one run of it, which a crash may cut short. */
module OutboxDrain {
  import opened Options
  import opened Lists

  datatype RowState = Pending | Published | Failed

  datatype OutboxRow = OutboxRow(
    id: string, eventName: string, correlationId: string, payload: string, state: RowState, attemptCount: nat,
    lastError: Option<string>, createdAt: int, publishedAt: Option<int>)

  datatype Envelope = Envelope(id: string, name: string, correlationId: string, emittedAt: int, payload: string)

  /**
   * What can happen to one record of a batch: published and marked; the bus throws, before or after taking the event (a
   * lost response, a local subscriber that throws); the bus takes the event but marking it throws; or the run ends
   * here, with the event taken or not (a lost process, or a failing FAILED update).
   */
  datatype Outcome =
    | Succeeds(now: int)
    | BusThrows(reason: string, taken: bool)
    | MarkThrows(reason: string)
    | Crashes(taken: bool)

  datatype RunResult = Completed(processed: nat, published: nat, failed: nat) | Aborted

  type Table = seq<OutboxRow>

  ghost predicate DistinctIds(rows: Table) {
    forall i, j :: 0 <= i < j < |rows| ==> rows[i].id != rows[j].id
  }

  function EnvelopeOf(row: OutboxRow): Envelope {
    Envelope(row.id, row.eventName, row.correlationId, row.createdAt, row.payload)
  }

  function Envelopes(rows: Table): seq<Envelope> {
    seq(|rows|, k requires 0 <= k < |rows| => EnvelopeOf(rows[k]))
  }

  /** The row after its record has been dealt with; a crash leaves it as it was. */
  function Marked(row: OutboxRow, outcome: Outcome): OutboxRow {
    match outcome
    case Succeeds(now) => row.(state := Published, publishedAt := Some(now), attemptCount := row.attemptCount + 1)
    case BusThrows(reason, _) => row.(state := Failed, lastError := Some(reason), attemptCount := row.attemptCount + 1)
    case MarkThrows(reason) => row.(state := Failed, lastError := Some(reason), attemptCount := row.attemptCount + 1)
    case Crashes(_) => row
  }

  /** What marking does to a row, by the fields. */
  lemma MarkedByFields(row: OutboxRow, outcome: Outcome)
    ensures var after := Marked(row, outcome);
      var counted := row.(attemptCount := row.attemptCount + 1);
      match outcome
      case Succeeds(now) => after == counted.(state := Published, publishedAt := Some(now))
      case BusThrows(reason, _) => after == counted.(state := Failed, lastError := Some(reason))
      case MarkThrows(reason) => after == counted.(state := Failed, lastError := Some(reason))
      case Crashes(_) => after == row
  {
  }

  /** The events of the records, one for each, by the fields. */
  lemma EnvelopesByFields(rows: Table)
    ensures |Envelopes(rows)| == |rows|
    ensures forall k | 0 <= k < |rows| :: var row := rows[k];
      Envelopes(rows)[k] == Envelope(row.id, row.eventName, row.correlationId, row.createdAt, row.payload)
  {
  }

  predicate Taken(outcome: Outcome) {
    outcome.Succeeds? || outcome.MarkThrows? || outcome.taken
  }

  // --------------------------------------------------------------------- findMany

  function PendingOf(rows: Table): Table {
    if rows == [] then []
    else PendingOf(rows[..|rows| - 1]) + if rows[|rows| - 1].state.Pending? then [rows[|rows| - 1]] else []
  }

  ghost predicate NoRepeats(rows: Table) {
    forall i, j :: 0 <= i < j < |rows| ==> rows[i] != rows[j]
  }

  ghost predicate SortedByCreation(rows: Table) {
    forall i, j :: 0 <= i < j < |rows| ==> rows[i].createdAt <= rows[j].createdAt
  }

  /** The PENDING rows, each once, in order of creation; rows created at the same time may stand in any order. */
  ghost predicate IsPendingOrder(rows: Table, order: Table) {
    && NoRepeats(order) && SortedByCreation(order)
    && forall r :: r in order <==> r in rows && r.state.Pending?
  }

  function InsertByCreation(row: OutboxRow, rows: Table): Table {
    if rows == [] then [row]
    else if rows[|rows| - 1].createdAt <= row.createdAt then rows + [row]
    else InsertByCreation(row, rows[..|rows| - 1]) + [rows[|rows| - 1]]
  }

  function SortByCreation(rows: Table): Table {
    if rows == [] then [] else InsertByCreation(rows[|rows| - 1], SortByCreation(rows[..|rows| - 1]))
  }

  /** t is rows with one row put in at index k. */
  ghost predicate IsPutAt(t: Table, rows: Table, row: OutboxRow, k: nat) {
    && k <= |rows| && |t| == |rows| + 1
    && (forall i :: 0 <= i < k ==> t[i] == rows[i])
    && t[k] == row
    && (forall i :: k < i < |t| ==> t[i] == rows[i - 1])
  }

  lemma {:induction false} InsertSplits(row: OutboxRow, rows: Table) returns (k: nat)
    requires SortedByCreation(rows)
    ensures IsPutAt(InsertByCreation(row, rows), rows, row, k)
    ensures forall i :: 0 <= i < |rows| ==> (i < k <==> rows[i].createdAt <= row.createdAt)
  {
    if rows == [] || rows[|rows| - 1].createdAt <= row.createdAt {
      k := |rows|;
    } else {
      var front := rows[..|rows| - 1];
      k := InsertSplits(row, front);
      var t := InsertByCreation(row, front);
      assert InsertByCreation(row, rows) == t + [rows[|rows| - 1]];
      hide InsertByCreation;
      assert forall i :: k < i < |t| ==> t[i] == front[i - 1] == rows[i - 1];
    }
  }

  lemma InsertKeepsOrder(row: OutboxRow, rows: Table)
    requires SortedByCreation(rows) && NoRepeats(rows) && row !in rows
    ensures var t := InsertByCreation(row, rows);
      SortedByCreation(t) && NoRepeats(t) && forall r :: r in t <==> r in rows || r == row
  {
    var k := InsertSplits(row, rows);
    PutBetween(row, rows, k, InsertByCreation(row, rows));
  }

  lemma PutBetween(row: OutboxRow, rows: Table, k: nat, t: Table)
    requires SortedByCreation(rows) && NoRepeats(rows) && row !in rows && IsPutAt(t, rows, row, k)
    requires forall i :: 0 <= i < |rows| ==> (i < k <==> rows[i].createdAt <= row.createdAt)
    ensures SortedByCreation(t) && NoRepeats(t) && forall r :: r in t <==> r in rows || r == row
  {
    assert t[k] in t;
    forall r <- rows
      ensures r in t
    {
      var i :| 0 <= i < |rows| && rows[i] == r;
      assert i < k ==> t[i] == r;
      assert i >= k ==> t[i + 1] == r;
    }
  }

  lemma {:induction false} PendingMeans(rows: Table)
    ensures forall r :: r in PendingOf(rows) <==> r in rows && r.state.Pending?
  {
    if rows != [] {
      PendingMeans(rows[..|rows| - 1]);
      assert rows == rows[..|rows| - 1] + [rows[|rows| - 1]];
    }
  }

  lemma {:induction false} SortIsPendingOrder(rows: Table)
    requires DistinctIds(rows)
    ensures IsPendingOrder(rows, SortByCreation(PendingOf(rows)))
  {
    if rows != [] {
      var front, last := rows[..|rows| - 1], rows[|rows| - 1];
      SortIsPendingOrder(front);
      PendingMeans(front);
      assert rows == front + [last];
      assert last !in front;
      var p := PendingOf(front);
      if last.state.Pending? {
        assert PendingOf(rows)[..|p|] == p;
        assert SortByCreation(PendingOf(rows)) == InsertByCreation(last, SortByCreation(p));
        InsertKeepsOrder(last, SortByCreation(p));
      } else {
        assert PendingOf(rows) == p;
      }
    }
  }

  // ----------------------------------------------------------------------- one run

  /**
   * A run: the order its batch was taken from, what happened to each record, how many were attempted, and whether it
   * ended.
   */
  datatype Run = Run(order: Table, outcomes: seq<Outcome>, attempted: nat, finished: bool)

  /** Each attempted row has been marked by its outcome, and no other row has changed. */
  ghost predicate AllMarked(before: Table, after: Table, attempted: Table, outcomes: seq<Outcome>)
    requires |attempted| <= |outcomes|
  {
    && |after| == |before|
    && (forall i, k | 0 <= i < |before| && 0 <= k < |attempted| && before[i] == attempted[k] ::
      after[i] == Marked(before[i], outcomes[k]))
    && (forall i | 0 <= i < |before| && before[i] !in attempted :: after[i] == before[i])
  }

  /** A finished run attempts the whole batch without a crash; otherwise its last attempt is the first to crash. */
  ghost predicate EndsRightly(batchSize: nat, run: Run) {
    var n, m := Min(batchSize, |run.order|), run.attempted;
    && m <= n && m <= |run.outcomes|
    && (run.finished ==> m == n && NoCrashBefore(run.outcomes, m))
    && (!run.finished ==> m > 0 && run.outcomes[m - 1].Crashes? && NoCrashBefore(run.outcomes, m - 1))
  }

  ghost predicate IsRun(before: Table, after: Table, batchSize: nat, run: Run) {
    && IsPendingOrder(before, run.order) && EndsRightly(batchSize, run)
    && AllMarked(before, after, run.order[..run.attempted], run.outcomes)
  }

  function Successes(outcomes: seq<Outcome>, n: nat): nat
    requires n <= |outcomes|
  {
    if n == 0 then 0 else Successes(outcomes, n - 1) + if outcomes[n - 1].Succeeds? then 1 else 0
  }

  /** The number of the first n records that are PUBLISHED once they are marked. */
  ghost function PublishedAmong(records: Table, outcomes: seq<Outcome>, n: nat): nat
    requires n <= |records| && n <= |outcomes|
  {
    if n == 0 then 0
    else
      var published := Marked(records[n - 1], outcomes[n - 1]).state == Published;
      PublishedAmong(records, outcomes, n - 1) + if published then 1 else 0
  }

  /** What a run reports as published is the number of PENDING rows it made PUBLISHED. */
  lemma {:induction false} SuccessesByRows(records: Table, outcomes: seq<Outcome>, n: nat)
    requires n <= |records| && n <= |outcomes| && forall r <- records :: r.state.Pending?
    ensures Successes(outcomes, n) == PublishedAmong(records, outcomes, n)
  {
    if n > 0 {
      SuccessesByRows(records, outcomes, n - 1);
      assert records[n - 1] in records;
    }
  }

  class EventBus {
    var attempts: seq<Envelope>

    method Publish(envelope: Envelope)
      modifies this
      ensures attempts == old(attempts) + [envelope]
    {
      attempts := attempts + [envelope];
    }
  }

  const DEFAULT_BATCH_SIZE: nat := 25

  function SizeOf(batchSize: Option<nat>): (size: nat)
    ensures batchSize == None ==> size == 25
    ensures batchSize == Some(size) || batchSize == None
  {
    if batchSize.Some? then batchSize.value else DEFAULT_BATCH_SIZE
  }

  class OutboxTable {
    var rows: Table

    method FindPending(take: nat) returns (batch: Table, ghost order: Table)
      requires DistinctIds(rows)
      ensures IsPendingOrder(rows, order) && batch == order[..Min(take, |order|)]
    {
      SortIsPendingOrder(rows);
      var sorted := SortByCreation(PendingOf(rows));
      order := sorted;
      batch := sorted[..Min(take, |sorted|)];
    }

    method Update(id: string, row: OutboxRow)
      modifies this
      ensures |rows| == |old(rows)|
      ensures forall i :: 0 <= i < |rows| ==> rows[i] == if old(rows)[i].id == id then row else old(rows)[i]
    {
      rows := seq(|rows|, i requires 0 <= i < |rows| reads this => if rows[i].id == id then row else rows[i]);
    }

    /** The body of the drain loop: publish, then mark by how that went. */
    method PublishAndMark(bus: EventBus, record: OutboxRow, outcome: Outcome)
      modifies this, bus
      ensures bus.attempts == old(bus.attempts) + [
        Envelope(record.id, record.eventName, record.correlationId, record.createdAt, record.payload)]
      ensures |rows| == |old(rows)| && (outcome.Crashes? ==> rows == old(rows))
      ensures !outcome.Crashes? ==> forall i :: 0 <= i < |rows| ==>
        rows[i] == if old(rows)[i].id == record.id then Marked(record, outcome) else old(rows)[i]
    {
      bus.Publish(EnvelopeOf(record));
      match outcome
      case Succeeds(now) =>
        Update(record.id,
          record.(state := Published, publishedAt := Some(now), attemptCount := record.attemptCount + 1));
      case BusThrows(reason, _) =>
        Update(record.id,
          record.(state := Failed, lastError := Some(reason), attemptCount := record.attemptCount + 1));
      case MarkThrows(reason) =>
        Update(record.id,
          record.(state := Failed, lastError := Some(reason), attemptCount := record.attemptCount + 1));
      case Crashes(_) =>
    }

    method ProcessOutbox(bus: EventBus, size: Option<nat>, outcomes: seq<Outcome>)
      returns (result: RunResult, ghost run: Run)
      requires DistinctIds(rows) && SizeOf(size) <= |outcomes|
      modifies this, bus
      ensures IsRun(old(rows), rows, SizeOf(size), run) && run.outcomes == outcomes
      ensures bus.attempts == old(bus.attempts) + Envelopes(run.order[..run.attempted])
      ensures result.Aborted? <==> !run.finished
      ensures result.Completed? ==>
        && result.processed == run.attempted == result.published + result.failed
        && result.published == Successes(outcomes, run.attempted)
    {
      ghost var before, order, attempts := rows, [], bus.attempts;
      var pending: Table, batchSize := [], SizeOf(size);
      pending, order := FindPending(batchSize);
      var published, failed := 0, 0;
      NothingDone(before, attempts, order, outcomes);
      assert |pending| == Min(batchSize, |order|) <= |order| && |pending| <= |outcomes|;
      assert pending == order[..|pending|];
      hide *;
      for k := 0 to |pending|
        invariant NoCrashBefore(outcomes, k)
        invariant MarkedTo(before, rows, order, outcomes, k)
        invariant AttemptedTo(attempts, bus.attempts, order, k)
        invariant published == Successes(outcomes, k) && published + failed == k
      {
        ghost var was := rows;
        PublishAndMark(bus, pending[k], outcomes[k]);
        MarkOneMore(before, was, rows, order, k, outcomes);
        AttemptOneMore(attempts, order, k, outcomes);
        if outcomes[k].Crashes? {
          run := Run(order, outcomes, k + 1, false);
          RunEnds(before, rows, batchSize, run);
          AttemptsSoFar(attempts, bus.attempts, order, k + 1);
          return Aborted, run;
        }
        if outcomes[k].Succeeds? {
          published := published + 1;
        } else {
          failed := failed + 1;
        }
      }
      result := Completed(|pending|, published, failed);
      run := Run(order, outcomes, |pending|, true);
      RunEnds(before, rows, batchSize, run);
      AttemptsSoFar(attempts, bus.attempts, order, |pending|);
    }
  }

  // ------------------------------------------------------------ the loop's steps

  ghost predicate NoCrashBefore(outcomes: seq<Outcome>, k: nat)
    requires k <= |outcomes|
  {
    forall j :: 0 <= j < k ==> !outcomes[j].Crashes?
  }

  ghost predicate MarkedTo(before: Table, now: Table, order: Table, outcomes: seq<Outcome>, k: nat)
    requires k <= |order| && k <= |outcomes|
  {
    AllMarked(before, now, order[..k], outcomes)
  }

  ghost predicate AttemptedTo(before: seq<Envelope>, now: seq<Envelope>, order: Table, k: nat)
    requires k <= |order|
  {
    now == before + Envelopes(order[..k])
  }

  lemma NothingDone(rows: Table, attempts: seq<Envelope>, order: Table, outcomes: seq<Outcome>)
    ensures AttemptedTo(attempts, attempts, order, 0) && MarkedTo(rows, rows, order, outcomes, 0)
    ensures Successes(outcomes, 0) == 0 && NoCrashBefore(outcomes, 0)
  {
  }

  lemma AttemptsSoFar(before: seq<Envelope>, now: seq<Envelope>, order: Table, k: nat)
    requires k <= |order| && AttemptedTo(before, now, order, k)
    ensures now == before + Envelopes(order[..k])
  {
  }

  lemma AttemptOneMore(before: seq<Envelope>, order: Table, k: nat, outcomes: seq<Outcome>)
    requires k < |order| && k < |outcomes|
    ensures forall now :: AttemptedTo(before, now, order, k) ==>
      AttemptedTo(before, now + [EnvelopeOf(order[k])], order, k + 1)
    ensures NoCrashBefore(outcomes, k) && !outcomes[k].Crashes? ==> NoCrashBefore(outcomes, k + 1)
    ensures Successes(outcomes, k + 1) == Successes(outcomes, k) + if outcomes[k].Succeeds? then 1 else 0
  {
    assert Envelopes(order[..k + 1]) == Envelopes(order[..k]) + [EnvelopeOf(order[k])];
  }

  lemma RunEnds(before: Table, after: Table, batchSize: nat, run: Run)
    requires IsPendingOrder(before, run.order) && run.attempted <= |run.outcomes| && run.attempted <= |run.order|
    requires MarkedTo(before, after, run.order, run.outcomes, run.attempted)
    requires run.attempted <= Min(batchSize, |run.order|)
    requires run.finished ==>
      run.attempted == Min(batchSize, |run.order|) && NoCrashBefore(run.outcomes, run.attempted)
    requires !run.finished ==>
      0 < run.attempted && run.outcomes[run.attempted - 1].Crashes? && NoCrashBefore(run.outcomes, run.attempted - 1)
    ensures IsRun(before, after, batchSize, run)
  {
    hide AllMarked, IsPendingOrder;
  }

  lemma MarkOneMore(before: Table, was: Table, now: Table, order: Table, k: nat, outcomes: seq<Outcome>)
    requires DistinctIds(before) && IsPendingOrder(before, order) && k < |order| && k < |outcomes|
    requires MarkedTo(before, was, order, outcomes, k)
    requires |now| == |was| && (outcomes[k].Crashes? ==> now == was)
    requires !outcomes[k].Crashes? ==> forall i :: 0 <= i < |was| ==>
      now[i] == if was[i].id == order[k].id then Marked(order[k], outcomes[k]) else was[i]
    ensures MarkedTo(before, now, order, outcomes, k + 1)
  {
    var record, done := order[k], order[..k];
    assert record in order;
    assert record in before && record !in done;
    hide IsPendingOrder, Marked;
    var r :| 0 <= r < |before| && before[r] == record;
    IdsKept(before, was, done, outcomes);
    hide AllMarked;
    forall i | 0 <= i < |before|
      ensures now[i] == if i == r then Marked(record, outcomes[k]) else was[i]
      ensures before[i] == record ==> i == r
    {
      assert was[i].id == before[i].id && was[r].id == record.id;
      if outcomes[k].Crashes? && i == r {
        CrashChangesNothing(before, was, done, r, outcomes, k);
      }
    }
    hide DistinctIds;
    assert order[..k + 1] == done + [record];
    MarkedAppend(before, was, now, done, record, r, outcomes);
  }

  lemma IdsKept(before: Table, was: Table, done: Table, outcomes: seq<Outcome>)
    requires |done| <= |outcomes| && AllMarked(before, was, done, outcomes)
    ensures forall i :: 0 <= i < |before| ==> was[i].id == before[i].id
  {
    forall i | 0 <= i < |before|
      ensures was[i].id == before[i].id
    {
      if before[i] in done {
        var j :| 0 <= j < |done| && done[j] == before[i];
      }
    }
  }

  lemma CrashChangesNothing(before: Table, was: Table, done: Table, r: nat, outcomes: seq<Outcome>, k: nat)
    requires |done| <= |outcomes| && AllMarked(before, was, done, outcomes)
    requires r < |before| && before[r] !in done && k < |outcomes| && outcomes[k].Crashes?
    ensures was[r] == Marked(before[r], outcomes[k])
  {
  }

  lemma MarkedAppend(
    before: Table, was: Table, now: Table, done: Table, record: OutboxRow, r: nat, outcomes: seq<Outcome>)
    requires |done| < |outcomes| && AllMarked(before, was, done, outcomes) && record !in done
    requires r < |before| == |now| && before[r] == record
    requires forall i :: 0 <= i < |before| && before[i] == record ==> i == r
    requires forall i :: 0 <= i < |before| ==> now[i] == if i == r then Marked(record, outcomes[|done|]) else was[i]
    ensures AllMarked(before, now, done + [record], outcomes)
  {
    hide Marked;
    var marked := done + [record];
    forall i, k | 0 <= i < |before| && 0 <= k < |marked| && before[i] == marked[k]
      ensures now[i] == Marked(before[i], outcomes[k])
    {
      if k < |done| {
        assert done[k] == before[i];
      }
    }
    forall i | 0 <= i < |before| && before[i] !in marked
      ensures now[i] == before[i]
    {
      assert record in marked && forall x <- done :: x in marked;
    }
  }
}
