/** Drain runs that overlap: the marks go by id alone, so one run can mark a row that another has settled. */
module DrainOverlap {
  import opened Options
  import opened OutboxDrain

  /** A run between its calls: the batch it read, how many records it has marked, and how its current publish went. */
  datatype Drain = Drain(batch: Table, pos: nat, outcome: Option<Outcome>)

  datatype State = State(rows: Table, drains: map<nat, Drain>)

  /** A run reads its batch, offers a record to the bus, and marks it. A run that crashes takes no further step. */
  datatype Action = Begin(d: nat, order: Table, size: nat) | Offer(d: nat, outcome: Outcome) | Mark(d: nat)

  ghost predicate Enabled(s: State, a: Action) {
    match a
    case Begin(d, order, size) => d !in s.drains && IsPendingOrder(s.rows, order) && size <= |order|
    case Offer(d, outcome) =>
      && d in s.drains && s.drains[d].pos < |s.drains[d].batch| && s.drains[d].outcome.None?
      && !outcome.Crashes?
    case Mark(d) => d in s.drains && s.drains[d].pos < |s.drains[d].batch| && s.drains[d].outcome.Some?
  }

  /** The update of a row as it now is, with the attempt count of the record as it was read. */
  function MarkedOver(row: OutboxRow, record: OutboxRow, outcome: Outcome): OutboxRow {
    var attempted := row.(attemptCount := record.attemptCount + 1);
    match outcome
    case Succeeds(now) => attempted.(state := Published, publishedAt := Some(now))
    case BusThrows(reason, _) => attempted.(state := Failed, lastError := Some(reason))
    case MarkThrows(reason) => attempted.(state := Failed, lastError := Some(reason))
    case Crashes(_) => row
  }

  /** What a mark does to a row as it now is, by the fields; on the row as it was read, what a run alone does. */
  lemma MarkedOverByFields(row: OutboxRow, record: OutboxRow, outcome: Outcome)
    ensures var after := MarkedOver(row, record, outcome);
      var counted := row.(attemptCount := record.attemptCount + 1);
      match outcome
      case Succeeds(now) => after == counted.(state := Published, publishedAt := Some(now))
      case BusThrows(reason, _) => after == counted.(state := Failed, lastError := Some(reason))
      case MarkThrows(reason) => after == counted.(state := Failed, lastError := Some(reason))
      case Crashes(_) => after == row
    ensures MarkedOver(row, row, outcome) == Marked(row, outcome)
  {
  }

  function UpdateRows(rows: Table, record: OutboxRow, outcome: Outcome): Table {
    seq(|rows|, i requires 0 <= i < |rows| =>
      if rows[i].id == record.id then MarkedOver(rows[i], record, outcome) else rows[i])
  }

  ghost function Step(s: State, a: Action): State
    requires Enabled(s, a)
  {
    match a
    case Begin(d, order, size) => s.(drains := s.drains[d := Drain(order[..size], 0, None)])
    case Offer(d, outcome) => s.(drains := s.drains[d := s.drains[d].(outcome := Some(outcome))])
    case Mark(d) =>
      var r := s.drains[d];
      State(UpdateRows(s.rows, r.batch[r.pos], r.outcome.value), s.drains[d := Drain(r.batch, r.pos + 1, None)])
  }

  ghost predicate IsStep(s: State, a: Action, t: State) {
    Enabled(s, a) && t == Step(s, a)
  }

  ghost predicate NoDrains(s: State) {
    DistinctIds(s.rows) && s.drains == map[]
  }

  ghost predicate IsRun(states: seq<State>, actions: seq<Action>) {
    && |states| == |actions| + 1 && NoDrains(states[0])
    && forall i :: 0 <= i < |actions| ==> IsStep(states[i], actions[i], states[i + 1])
  }

  // ---------------------------------------------------------------------- one step

  ghost predicate PendingId(rows: Table, id: string) {
    exists r <- rows :: r.id == id && r.state.Pending?
  }

  /** A mark of the row with the id. */
  ghost predicate Marks(s: State, a: Action, id: string) {
    a.Mark? && Enabled(s, a) && s.drains[a.d].batch[s.drains[a.d].pos].id == id
  }

  /** No outcome that a run has stored is a crash. */
  ghost predicate StoredOutcomes(s: State) {
    forall d <- s.drains :: s.drains[d].outcome.Some? ==> !s.drains[d].outcome.value.Crashes?
  }

  lemma StepStores(s: State, a: Action)
    requires StoredOutcomes(s) && Enabled(s, a)
    ensures StoredOutcomes(Step(s, a))
  {
    hide IsPendingOrder;
  }

  lemma UpdatePending(rows: Table, record: OutboxRow, outcome: Outcome, id: string)
    requires !outcome.Crashes?
    ensures PendingId(UpdateRows(rows, record, outcome), id) <==> PendingId(rows, id) && id != record.id
  {
    var after := UpdateRows(rows, record, outcome);
    if r :| r in rows && r.id == id && r.state.Pending? && id != record.id {
      var i :| 0 <= i < |rows| && rows[i] == r;
      assert after[i] == r;
    }
    if r :| r in after && r.id == id && r.state.Pending? {
      var i :| 0 <= i < |after| && after[i] == r;
      assert rows[i] in rows;
    }
  }

  /** A row is PENDING after a step if it was before and the step does not mark it. */
  lemma StepPending(s: State, a: Action, id: string)
    requires StoredOutcomes(s) && Enabled(s, a)
    ensures PendingId(Step(s, a).rows, id) <==> PendingId(s.rows, id) && !Marks(s, a, id)
  {
    if a.Mark? {
      var r := s.drains[a.d];
      UpdatePending(s.rows, r.batch[r.pos], r.outcome.value, id);
    }
  }

  // -------------------------------------------------------------------- whole runs

  lemma RunAt(states: seq<State>, actions: seq<Action>, i: nat)
    requires IsRun(states, actions)
    ensures |states| == |actions| + 1 && NoDrains(states[0])
    ensures i < |actions| ==> Enabled(states[i], actions[i]) && states[i + 1] == Step(states[i], actions[i])
  {
    hide Enabled, Step, NoDrains;
    assert i < |actions| ==> IsStep(states[i], actions[i], states[i + 1]);
  }

  lemma {:induction false} RunStores(states: seq<State>, actions: seq<Action>, i: nat)
    requires IsRun(states, actions) && i < |states|
    ensures StoredOutcomes(states[i])
  {
    RunAt(states, actions, if i > 0 then i - 1 else 0);
    if i > 0 {
      hide *;
      RunStores(states, actions, i - 1);
      StepStores(states[i - 1], actions[i - 1]);
    }
  }

  ghost predicate NoMarkIn(states: seq<State>, actions: seq<Action>, i: int, j: int, id: string)
    requires 0 <= i <= j <= |actions| && |states| == |actions| + 1
  {
    forall m :: i <= m < j ==> !Marks(states[m], actions[m], id)
  }

  lemma NoMarkOneMore(states: seq<State>, actions: seq<Action>, i: nat, j: nat, id: string)
    requires i <= j <= |actions| && |states| == |actions| + 1
    ensures i == j ==> NoMarkIn(states, actions, i, j, id)
    ensures i < j ==>
      (NoMarkIn(states, actions, i, j, id)
       <==> NoMarkIn(states, actions, i, j - 1, id) && !Marks(states[j - 1], actions[j - 1], id))
  {
    hide Marks;
  }

  /** A row PENDING at i is PENDING at j exactly if no step in between marks it. */
  lemma {:induction false} PendingOverRun(states: seq<State>, actions: seq<Action>, i: nat, j: nat, id: string)
    requires IsRun(states, actions) && i <= j < |states|
    ensures |states| == |actions| + 1
    ensures PendingId(states[j].rows, id) <==> PendingId(states[i].rows, id) && NoMarkIn(states, actions, i, j, id)
    decreases j
  {
    hide *;
    RunAt(states, actions, 0);
    NoMarkOneMore(states, actions, i, j, id);
    if i < j {
      PendingOverRun(states, actions, i, j - 1, id);
      RunAt(states, actions, j - 1);
      RunStores(states, actions, j - 1);
      StepPending(states[j - 1], actions[j - 1], id);
    }
  }

  /** Run d read its batch in step i, and all its records were PENDING then. */
  ghost predicate HasRead(states: seq<State>, actions: seq<Action>, i: nat, j: nat, d: nat)
    requires |states| == |actions| + 1
  {
    && i < j < |states| && d in states[j].drains && actions[i].Begin? && actions[i].d == d
    && forall r <- states[j].drains[d].batch :: PendingId(states[i].rows, r.id)
  }

  lemma BeginReadsPending(s: State, a: Action)
    requires a.Begin? && Enabled(s, a)
    ensures a.d in Step(s, a).drains && forall r <- Step(s, a).drains[a.d].batch :: PendingId(s.rows, r.id)
  {
    forall r <- a.order[..a.size]
      ensures PendingId(s.rows, r.id)
    {
      assert r in a.order;
    }
  }

  lemma BatchStays(s: State, a: Action, d: nat)
    requires Enabled(s, a) && d in s.drains
    ensures d in Step(s, a).drains && Step(s, a).drains[d].batch == s.drains[d].batch
  {
    hide IsPendingOrder;
  }

  lemma NewDrain(s: State, a: Action, d: nat)
    requires Enabled(s, a) && d !in s.drains && d in Step(s, a).drains
    ensures a.Begin? && a.d == d
  {
    hide IsPendingOrder;
  }

  lemma {:induction false} BeginOf(states: seq<State>, actions: seq<Action>, j: nat, d: nat) returns (i: nat)
    requires IsRun(states, actions) && j < |states| && d in states[j].drains
    ensures |states| == |actions| + 1 && HasRead(states, actions, i, j, d)
  {
    RunAt(states, actions, if j > 0 then j - 1 else 0);
    hide IsRun, Enabled, Step, PendingId;
    var s, a := states[j - 1], actions[j - 1];
    if d in s.drains {
      BatchStays(s, a, d);
      i := BeginOf(states, actions, j - 1, d);
    } else {
      NewDrain(s, a, d);
      BeginReadsPending(s, a);
      i := j - 1;
    }
  }

  /** A run begins once. */
  lemma {:induction false} BeginsOnce(states: seq<State>, actions: seq<Action>, i: nat, j: nat)
    requires IsRun(states, actions) && i < j < |states| && i < |actions| && actions[i].Begin?
    ensures actions[i].d in states[j].drains
    decreases j
  {
    RunAt(states, actions, i);
    RunAt(states, actions, j - 1);
    hide IsRun, IsPendingOrder;
    if i < j - 1 {
      BeginsOnce(states, actions, i, j - 1);
      BatchStays(states[j - 1], actions[j - 1], actions[i].d);
    }
  }

  /** Step i is the read of the run that marks a row in step j, and step m in between marks the same row. */
  ghost predicate Overtaken(states: seq<State>, actions: seq<Action>, i: int, m: int, j: int)
    requires |states| == |actions| + 1
  {
    && 0 <= i < m < j < |actions|
    && actions[i].Begin? && actions[j].Mark? && actions[i].d == actions[j].d
    && exists id :: Marks(states[j], actions[j], id) && Marks(states[m], actions[m], id)
  }

  /** The mark of step j finds its row still PENDING. */
  ghost predicate FindsPending(s: State, a: Action)
    requires a.Mark? && Enabled(s, a)
  {
    PendingId(s.rows, s.drains[a.d].batch[s.drains[a.d].pos].id)
  }

  /** A mark finds its row PENDING exactly when no mark of that row came since its run had read the batch. */
  lemma FindsPendingIff(states: seq<State>, actions: seq<Action>, j: nat)
    requires IsRun(states, actions) && j < |actions| && actions[j].Mark?
    ensures |states| == |actions| + 1 && Enabled(states[j], actions[j])
    ensures FindsPending(states[j], actions[j]) <==> forall i, m :: !Overtaken(states, actions, i, m, j)
  {
    RunAt(states, actions, j);
    var d := actions[j].d;
    var record := states[j].drains[d].batch[states[j].drains[d].pos];
    var i := BeginOf(states, actions, j, d);
    RunAt(states, actions, i);
    assert record in states[j].drains[d].batch;
    PendingOverRun(states, actions, i, j, record.id);
    forall l: nat | l < j && actions[l].Begin? && actions[l].d == d
      ensures l == i
    {
      RunAt(states, actions, l);
      if l < i {
        BeginsOnce(states, actions, l, i);
      } else if i < l {
        BeginsOnce(states, actions, i, l);
      }
    }
    assert Marks(states[j], actions[j], record.id);
    hide IsRun, PendingId, IsPendingOrder, Step;
    assert !Marks(states[i], actions[i], record.id);
    if m :| i <= m < j && Marks(states[m], actions[m], record.id) {
      assert Overtaken(states, actions, i, m, j);
    }
  }

  ghost predicate EveryMarkFindsPending(states: seq<State>, actions: seq<Action>)
    requires |states| == |actions| + 1
  {
    forall j | 0 <= j < |actions| ::
      actions[j].Mark? && Enabled(states[j], actions[j]) ==> FindsPending(states[j], actions[j])
  }

  /**
   * However runs overlap, every mark takes its row out of PENDING, and so no row is settled twice, exactly when no mark
   * of a row falls between another run's read of it and that run's own mark.
   */
  lemma SettledOnceIff(states: seq<State>, actions: seq<Action>)
    requires IsRun(states, actions)
    ensures |states| == |actions| + 1
    ensures EveryMarkFindsPending(states, actions) <==> forall i, m, j :: !Overtaken(states, actions, i, m, j)
  {
    RunAt(states, actions, 0);
    hide IsRun, FindsPending;
    forall j: nat | j < |actions| && actions[j].Mark?
      ensures Enabled(states[j], actions[j])
      ensures FindsPending(states[j], actions[j]) <==> forall i, m :: !Overtaken(states, actions, i, m, j)
    {
      FindsPendingIff(states, actions, j);
    }
    if EveryMarkFindsPending(states, actions) {
      forall i, m, j
        ensures !Overtaken(states, actions, i, m, j)
      {
        if 0 <= j < |actions| && actions[j].Mark? {
          assert FindsPending(states[j], actions[j]);
        }
      }
    }
  }

  /**
   * Two runs that overlap on one row: both get its event out, the first marks it PUBLISHED, and the second, whose
   * publish throws all the same, marks it FAILED. Of the two attempts one is counted.
   */
  lemma PublishedThenFailed(row: OutboxRow, now: int, reason: string) returns (states: seq<State>, actions: seq<Action>)
    requires row.state.Pending?
    ensures IsRun(states, actions) && |states| == 7 && states[0].rows == [row]
    ensures actions == [
      Begin(0, [row], 1), Begin(1, [row], 1), Offer(0, Succeeds(now)), Offer(1, BusThrows(reason, true)),
      Mark(0), Mark(1)]
    ensures |states[5].rows| == 1 && states[5].rows[0].state.Published?
    ensures |states[6].rows| == 1 && states[6].rows[0].state.Failed? && states[6].rows[0].publishedAt == Some(now)
    ensures states[6].rows[0].attemptCount == row.attemptCount + 1
  {
    var ok, bad := Succeeds(now), BusThrows(reason, true);
    actions := [Begin(0, [row], 1), Begin(1, [row], 1), Offer(0, ok), Offer(1, bad), Mark(0), Mark(1)];
    var rows := [row];
    var unmarked := Drain(rows, 0, None);
    var published := MarkedOver(row, row, ok);
    var s0, s1 := State(rows, map[]), State(rows, map[][0 := unmarked]);
    var s2 := State(rows, s1.drains[1 := unmarked]);
    var s3 := State(rows, s2.drains[0 := Drain(rows, 0, Some(ok))]);
    var s4 := State(rows, s3.drains[1 := Drain(rows, 0, Some(bad))]);
    var s5 := State([published], s4.drains[0 := Drain(rows, 1, None)]);
    var s6 := State([MarkedOver(published, row, bad)], s5.drains[1 := Drain(rows, 1, None)]);
    states := [s0, s1, s2, s3, s4, s5, s6];
    assert rows[..1] == rows && IsPendingOrder(rows, rows);
    hide IsPendingOrder;
    assert IsStep(s0, actions[0], s1) && IsStep(s1, actions[1], s2);
    assert IsStep(s2, actions[2], s3) && IsStep(s3, actions[3], s4);
    assert IsStep(s4, actions[4], s5) by {
      assert UpdateRows(rows, row, ok) == [published];
    }
    assert IsStep(s5, actions[5], s6) by {
      assert UpdateRows([published], row, bad) == [MarkedOver(published, row, bad)];
    }
    hide IsStep;
  }

  // ----------------------------------------------------------- what the bus was offered

  /** The rows are those of the table at first, but for what a mark changes. */
  ghost predicate SameEvents(first: Table, rows: Table) {
    |rows| == |first| && forall i :: 0 <= i < |first| ==> EnvelopeOf(rows[i]) == EnvelopeOf(first[i])
  }

  /** Every record that a run has read stands for the event of a row. */
  ghost predicate BatchesFrom(s: State, first: Table) {
    forall d, k | d in s.drains && 0 <= k < |s.drains[d].batch| :: IsEventOf(s.drains[d].batch[k], first)
  }

  ghost predicate IsEventOf(record: OutboxRow, first: Table) {
    exists i :: 0 <= i < |first| && EnvelopeOf(record) == EnvelopeOf(first[i])
  }

  lemma BeginReadsEvents(s: State, a: Action, first: Table)
    requires a.Begin? && Enabled(s, a) && SameEvents(first, s.rows)
    ensures forall k :: 0 <= k < a.size ==> IsEventOf(a.order[k], first)
  {
    forall k | 0 <= k < a.size
      ensures IsEventOf(a.order[k], first)
    {
      assert a.order[k] in a.order;
      var i :| 0 <= i < |s.rows| && s.rows[i] == a.order[k];
      assert EnvelopeOf(s.rows[i]) == EnvelopeOf(first[i]);
    }
  }

  lemma StepKeepsEvents(s: State, a: Action, first: Table)
    requires Enabled(s, a) && SameEvents(first, s.rows) && BatchesFrom(s, first)
    ensures SameEvents(first, Step(s, a).rows) && BatchesFrom(Step(s, a), first)
  {
    if a.Begin? {
      BeginReadsEvents(s, a, first);
    }
    hide IsPendingOrder, IsEventOf;
    if a.Mark? {
      var r := s.drains[a.d];
      forall i | 0 <= i < |first|
        ensures EnvelopeOf(Step(s, a).rows[i]) == EnvelopeOf(first[i])
      {
        assert EnvelopeOf(MarkedOver(s.rows[i], r.batch[r.pos], r.outcome.value)) == EnvelopeOf(s.rows[i]);
      }
    }
  }

  lemma {:induction false} RunKeepsEvents(states: seq<State>, actions: seq<Action>, j: nat)
    requires IsRun(states, actions) && j < |states|
    ensures SameEvents(states[0].rows, states[j].rows) && BatchesFrom(states[j], states[0].rows)
  {
    RunAt(states, actions, if j > 0 then j - 1 else 0);
    assert j == 0 ==> SameEvents(states[0].rows, states[j].rows) && BatchesFrom(states[j], states[0].rows);
    hide *;
    if j > 0 {
      RunKeepsEvents(states, actions, j - 1);
      StepKeepsEvents(states[j - 1], actions[j - 1], states[0].rows);
    }
  }

  /** Step m offers the record to the bus, with the outcome. */
  ghost predicate Offers(s: State, a: Action, record: OutboxRow, outcome: Outcome) {
    a.Offer? && Enabled(s, a) && a.outcome == outcome && s.drains[a.d].batch[s.drains[a.d].pos] == record
  }

  ghost predicate WasOffered(states: seq<State>, actions: seq<Action>, j: int, record: OutboxRow, outcome: Outcome)
    requires 0 <= j <= |actions| && |states| == |actions| + 1
  {
    exists m | 0 <= m < j :: Offers(states[m], actions[m], record, outcome)
  }

  /** The outcome that a run has stored, and the record that it is of. */
  ghost predicate Stored(s: State, d: nat, record: OutboxRow, outcome: Outcome) {
    && d in s.drains && s.drains[d].outcome == Some(outcome) && s.drains[d].pos < |s.drains[d].batch|
    && s.drains[d].batch[s.drains[d].pos] == record
  }

  lemma StepStored(s: State, a: Action, d: nat, record: OutboxRow, outcome: Outcome)
    requires Enabled(s, a) && Stored(Step(s, a), d, record, outcome)
    ensures Stored(s, d, record, outcome) || Offers(s, a, record, outcome)
  {
    hide IsPendingOrder;
  }

  lemma OfferedEarlier(
    states: seq<State>, actions: seq<Action>, j: nat, record: OutboxRow, outcome: Outcome)
    requires 0 < j <= |actions| && |states| == |actions| + 1
    requires WasOffered(states, actions, j - 1, record, outcome)
          || Offers(states[j - 1], actions[j - 1], record, outcome)
    ensures WasOffered(states, actions, j, record, outcome)
  {
    hide Offers;
  }

  lemma {:induction false} StoredWasOffered(
    states: seq<State>, actions: seq<Action>, j: nat, d: nat, record: OutboxRow, outcome: Outcome)
    requires IsRun(states, actions) && j < |states| && Stored(states[j], d, record, outcome)
    ensures |states| == |actions| + 1 && WasOffered(states, actions, j, record, outcome)
  {
    RunAt(states, actions, 0);
    assert j > 0;
    hide *;
    RunAt(states, actions, j - 1);
    StepStored(states[j - 1], actions[j - 1], d, record, outcome);
    if !Offers(states[j - 1], actions[j - 1], record, outcome) {
      StoredWasOffered(states, actions, j - 1, d, record, outcome);
    }
    OfferedEarlier(states, actions, j, record, outcome);
  }

  /** Only a mark after a publish that succeeded makes a row PUBLISHED, and only the row with the record's id. */
  lemma StepPublishes(s: State, a: Action, i: nat) returns (record: OutboxRow, outcome: Outcome)
    requires Enabled(s, a) && i < |s.rows|
    ensures |Step(s, a).rows| == |s.rows|
    ensures !s.rows[i].state.Published? && Step(s, a).rows[i].state.Published? ==>
      a.Mark? && Stored(s, a.d, record, outcome) && outcome.Succeeds? && record.id == s.rows[i].id
  {
    hide IsPendingOrder;
    if a.Mark? {
      record, outcome := s.drains[a.d].batch[s.drains[a.d].pos], s.drains[a.d].outcome.value;
    } else {
      record, outcome := s.rows[i], Crashes(false);
    }
  }

  lemma SameEventById(first: Table, record: OutboxRow, i: nat)
    requires DistinctIds(first) && IsEventOf(record, first) && i < |first| && record.id == first[i].id
    ensures EnvelopeOf(record) == EnvelopeOf(first[i])
  {
    var k :| 0 <= k < |first| && EnvelopeOf(record) == EnvelopeOf(first[k]);
    assert first[k].id == first[i].id;
  }

  lemma RecordInBatch(s: State, first: Table, d: nat, record: OutboxRow, outcome: Outcome)
    requires BatchesFrom(s, first) && Stored(s, d, record, outcome)
    ensures IsEventOf(record, first)
  {
    hide IsEventOf;
  }

  /** However runs overlap, a row that is ever PUBLISHED had its event offered in a publish that succeeded. */
  lemma {:induction false} PublishedWasOffered(states: seq<State>, actions: seq<Action>, j: nat, i: nat)
    returns (m: nat)
    requires IsRun(states, actions) && j < |states| && i < |states[0].rows| == |states[j].rows|
    requires !states[0].rows[i].state.Published? && states[j].rows[i].state.Published?
    ensures m < j && m < |actions| && actions[m].Offer? && Enabled(states[m], actions[m])
    ensures actions[m].outcome.Succeeds?
    ensures EnvelopeOf(OfferedRecord(states[m], actions[m])) == EnvelopeOf(states[0].rows[i])
  {
    assert j > 0;
    RunAt(states, actions, j - 1);
    var s, a, first := states[j - 1], actions[j - 1], states[0].rows;
    RunKeepsEvents(states, actions, j - 1);
    hide IsRun, Enabled, Step, BatchesFrom, EnvelopeOf;
    if s.rows[i].state.Published? {
      m := PublishedWasOffered(states, actions, j - 1, i);
    } else {
      var record, outcome := StepPublishes(s, a, i);
      StoredWasOffered(states, actions, j - 1, a.d, record, outcome);
      m :| 0 <= m < j - 1 && Offers(states[m], actions[m], record, outcome);
      RecordInBatch(s, first, a.d, record, outcome);
      assert EnvelopeOf(s.rows[i]) == EnvelopeOf(first[i]);
      SameIdByEvent(s.rows[i], first[i]);
      SameEventById(first, record, i);
    }
  }

  lemma SameIdByEvent(x: OutboxRow, y: OutboxRow)
    requires EnvelopeOf(x) == EnvelopeOf(y)
    ensures x.id == y.id
  {
  }

  ghost function OfferedRecord(s: State, a: Action): OutboxRow
    requires a.Offer? && Enabled(s, a)
  {
    s.drains[a.d].batch[s.drains[a.d].pos]
  }
}
