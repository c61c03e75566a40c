/** Concurrent calls of `publishWithOutbox` on one outbox, interleaved at their awaits. */
module OutboxProtocol {
  import opened Options
  import opened Lists
  import opened Outbox

  /**
   * Where a call stands: waiting for the bus, about to finalize, returned to its caller, or ended by an outbox error.
   */
  datatype Call =
    | Publishing(recordId: string)
    | Delivered(recordId: string)
    | Refused(recordId: string, reason: string)
    | Done(recordId: string, ok: bool)
    | Crashed(cause: UpdateResult)

  /** `delivered` and `finalized` record history: the record ids of successful publishes, and of successful updates. */
  datatype State = State(
    records: seq<OutboxRecord>, calls: map<nat, Call>, delivered: seq<string>, finalized: seq<string>)

  datatype Action =
    | Begin(call: nat, id: string, event: Event)
    | PublishOk(call: nat)
    | PublishThrows(call: nat, reason: string)
    | Settle(call: nat, now: string)

  const EMPTY := State([], map[], [], [])

  predicate InFlight(c: Call) {
    c.Publishing? || c.Delivered? || c.Refused?
  }

  /** `randomUUID` is taken to yield an id no record has. */
  ghost predicate Enabled(s: State, a: Action) {
    match a
    case Begin(c, id, _) => c !in s.calls && forall r <- s.records :: r.id != id
    case PublishOk(c) => c in s.calls && s.calls[c].Publishing?
    case PublishThrows(c, _) => c in s.calls && s.calls[c].Publishing?
    case Settle(c, _) => c in s.calls && (s.calls[c].Delivered? || s.calls[c].Refused?)
  }

  ghost function Step(s: State, a: Action): State
    requires Enabled(s, a)
  {
    match a
    case Begin(c, id, event) =>
      s.(records := s.records + [PendingRecord(id, event)], calls := s.calls[c := Publishing(id)])
    case PublishOk(c) =>
      var id := s.calls[c].recordId;
      s.(calls := s.calls[c := Delivered(id)], delivered := s.delivered + [id])
    case PublishThrows(c, reason) =>
      s.(calls := s.calls[c := Refused(s.calls[c].recordId, reason)])
    case Settle(c, now) =>
      var id, ok := s.calls[c].recordId, s.calls[c].Delivered?;
      var state := if ok then Published else Failed;
      var reason := if ok then None else Some(s.calls[c].reason);
      var outcome := UpdateOutcome(s.records, id, state, now, reason);
      if outcome.Updated? then
        s.(records := UpdateRecords(s.records, id, state, now, reason),
           calls := s.calls[c := Done(id, ok)], finalized := s.finalized + [id])
      else s.(calls := s.calls[c := Crashed(outcome)])
  }

  ghost predicate IsRun(states: seq<State>, actions: seq<Action>) {
    && |states| == |actions| + 1 && states[0] == EMPTY
    && forall i :: 0 <= i < |actions| ==> Enabled(states[i], actions[i]) && states[i + 1] == Step(states[i], actions[i])
  }

  // -------------------------------------------------------------------- invariant

  ghost function Ids(records: seq<OutboxRecord>): seq<string> {
    seq(|records|, k requires 0 <= k < |records| => records[k].id)
  }

  ghost predicate HasRecord(records: seq<OutboxRecord>, id: string, state: OutboxState) {
    exists r <- records :: r.id == id && r.state == state
  }

  ghost predicate IsInFlight(s: State, c: nat, id: string) {
    c in s.calls && InFlight(s.calls[c]) && s.calls[c].recordId == id
  }

  /** The PENDING records are exactly those of the calls in flight, one each. */
  ghost predicate PendingIsInFlight(s: State) {
    && (forall id :: HasRecord(s.records, id, Pending) <==> exists c :: IsInFlight(s, c, id))
    && (forall c, d, id :: IsInFlight(s, c, id) && IsInFlight(s, d, id) ==> c == d)
  }

  ghost predicate NoCrash(s: State) {
    forall c <- s.calls :: !s.calls[c].Crashed?
  }

  /** Each record that is not PENDING was finalized once, and no other was. */
  ghost predicate FinalizedMatches(s: State) {
    && Distinct(s.finalized)
    && forall id :: id in s.finalized <==> HasRecord(s.records, id, Published) || HasRecord(s.records, id, Failed)
  }

  /** Successful publishes are, one to one, the PUBLISHED records and the calls that are about to mark theirs. */
  ghost predicate DeliveredMatches(s: State) {
    && Distinct(s.delivered)
    && forall id :: id in s.delivered <==>
      HasRecord(s.records, id, Published) || exists c :: IsInFlight(s, c, id) && s.calls[c].Delivered?
  }

  ghost predicate Inv(s: State) {
    && Distinct(Ids(s.records)) && PendingIsInFlight(s) && NoCrash(s) && FinalizedMatches(s) && DeliveredMatches(s)
  }

  // ------------------------------------------------------------ what a step changes

  lemma BeginRecords(records: seq<OutboxRecord>, r: OutboxRecord)
    requires Distinct(Ids(records)) && forall x <- records :: x.id != r.id
    ensures Distinct(Ids(records + [r]))
    ensures forall id, state ::
      HasRecord(records + [r], id, state) <==> HasRecord(records, id, state) || (id == r.id && state == r.state)
  {
    var after := records + [r];
    assert r in after;
    assert forall x <- records :: x in after;
    assert forall k :: 0 <= k < |records| ==> Ids(records)[k] == records[k].id && records[k] in records;
  }

  /** The update of a record that is PENDING succeeds, and changes the state of that record only. */
  lemma SettleRecords(records: seq<OutboxRecord>, id: string, state: OutboxState, now: string, reason: Option<string>)
    requires Distinct(Ids(records)) && HasRecord(records, id, Pending)
    ensures UpdateOutcome(records, id, state, now, reason).Updated?
    ensures var after := UpdateRecords(records, id, state, now, reason);
      && Distinct(Ids(after))
      && forall x, st :: HasRecord(after, x, st) <==> if x == id then st == state else HasRecord(records, x, st)
  {
    var r :| r in records && r.id == id && r.state == Pending;
    var i :| 0 <= i < |records| && records[i] == r;
    assert Ids(records)[i] == id;
    var k := FindIndex(records, id).value;
    assert Ids(records)[k] == id;
    assert k == i;
    var after := UpdateRecords(records, id, state, now, reason);
    var next := Finalize(r, state, now, reason);
    assert after == records[k := next];
    assert Ids(after) == Ids(records);
    forall x, st
      ensures HasRecord(after, x, st) <==> if x == id then st == state else HasRecord(records, x, st)
    {
      assert after[k] in after;
      if HasRecord(after, x, st) {
        var y :| y in after && y.id == x && y.state == st;
        var j :| 0 <= j < |after| && after[j] == y;
        assert Ids(after)[j] == x;
        assert j != k ==> records[j] in records && records[j] == y;
      }
      if x != id && HasRecord(records, x, st) {
        var y :| y in records && y.id == x && y.state == st;
        var j :| 0 <= j < |records| && records[j] == y;
        assert after[j] == y;
      }
    }
  }

  lemma OneStateOnly(records: seq<OutboxRecord>, id: string, a: OutboxState, b: OutboxState)
    requires Distinct(Ids(records)) && HasRecord(records, id, a) && HasRecord(records, id, b)
    ensures a == b
  {
    var x :| x in records && x.id == id && x.state == a;
    var y :| y in records && y.id == id && y.state == b;
    var i :| 0 <= i < |records| && records[i] == x;
    var j :| 0 <= j < |records| && records[j] == y;
    assert Ids(records)[i] == id && Ids(records)[j] == id;
  }

  lemma DistinctSnoc<T>(s: seq<T>, x: T)
    requires Distinct(s) && x !in s
    ensures Distinct(s + [x])
  {
  }

  lemma BeginKeepsInv(s: State, c: nat, id: string, event: Event)
    requires Inv(s) && Enabled(s, Begin(c, id, event))
    ensures Inv(Step(s, Begin(c, id, event)))
  {
    var t := Step(s, Begin(c, id, event));
    BeginRecords(s.records, PendingRecord(id, event));
    assert forall state :: !HasRecord(s.records, id, state);
    hide HasRecord, Distinct, Ids;
    assert !HasRecord(s.records, id, Pending);
    assert forall d :: !IsInFlight(s, d, id);
    assert forall d, x :: IsInFlight(t, d, x) <==> (d == c && x == id) || (d != c && IsInFlight(s, d, x));
    forall x
      ensures HasRecord(t.records, x, Pending) <==> exists d :: IsInFlight(t, d, x)
      ensures (exists d :: IsInFlight(t, d, x) && t.calls[d].Delivered?)
         <==> exists d :: IsInFlight(s, d, x) && s.calls[d].Delivered?
    {
      if x == id {
        assert IsInFlight(t, c, x);
      }
      if d :| IsInFlight(s, d, x) {
        assert IsInFlight(t, d, x);
      }
      if d :| IsInFlight(s, d, x) && s.calls[d].Delivered? {
        assert IsInFlight(t, d, x) && t.calls[d].Delivered?;
      }
    }
  }

  lemma PublishKeepsInv(s: State, c: nat, failure: Option<string>)
    requires Inv(s) && Enabled(s, PublishOk(c))
    ensures Inv(Step(s, if failure.None? then PublishOk(c) else PublishThrows(c, failure.value)))
  {
    var id := s.calls[c].recordId;
    var t := Step(s, if failure.None? then PublishOk(c) else PublishThrows(c, failure.value));
    assert IsInFlight(s, c, id);
    if HasRecord(s.records, id, Published) {
      OneStateOnly(s.records, id, Pending, Published);
    }
    assert id !in s.delivered;
    DistinctSnoc(s.delivered, id);
    hide HasRecord, Distinct, Ids;
    assert forall d, x :: IsInFlight(t, d, x) <==> IsInFlight(s, d, x);
    assert failure.None? ==> IsInFlight(t, c, id) && t.calls[c].Delivered?;
    forall x
      ensures x in t.delivered <==>
        HasRecord(t.records, x, Published) || exists d :: IsInFlight(t, d, x) && t.calls[d].Delivered?
    {
      if x in s.delivered && !HasRecord(s.records, x, Published) {
        var d :| IsInFlight(s, d, x) && s.calls[d].Delivered?;
        assert IsInFlight(t, d, x) && t.calls[d].Delivered?;
      }
    }
  }

  /** What settling the call c changes: its record is finalized, and the call is no longer in flight. */
  ghost predicate IsSettled(s: State, t: State, c: nat, id: string, state: OutboxState) {
    && !state.Pending?
    && Distinct(Ids(t.records)) && (forall x, st ::
      HasRecord(t.records, x, st) <==> if x == id then st == state else HasRecord(s.records, x, st))
    && c in s.calls && t.calls == s.calls[c := Done(id, state.Published?)]
    && t.finalized == s.finalized + [id] && t.delivered == s.delivered
  }

  lemma SettleStep(s: State, c: nat, now: string)
    requires Inv(s) && Enabled(s, Settle(c, now))
    ensures IsSettled(
      s, Step(s, Settle(c, now)), c, s.calls[c].recordId, if s.calls[c].Delivered? then Published else Failed)
  {
    var id, ok := s.calls[c].recordId, s.calls[c].Delivered?;
    assert IsInFlight(s, c, id);
    hide DeliveredMatches, FinalizedMatches;
    SettleRecords(
      s.records, id, if ok then Published else Failed, now, if ok then None else Some(s.calls[c].reason));
    hide HasRecord, Distinct, Ids, UpdateOutcome, UpdateRecords;
  }

  lemma SettledOnlyOnce(s: State, c: nat, id: string)
    requires Inv(s) && IsInFlight(s, c, id)
    ensures HasRecord(s.records, id, Pending) && id !in s.finalized
    ensures !HasRecord(s.records, id, Published) && !HasRecord(s.records, id, Failed)
  {
    if HasRecord(s.records, id, Published) {
      OneStateOnly(s.records, id, Pending, Published);
    }
    if HasRecord(s.records, id, Failed) {
      OneStateOnly(s.records, id, Pending, Failed);
    }
  }

  lemma SettledMatches(s: State, t: State, c: nat, id: string, state: OutboxState)
    requires Inv(s) && IsInFlight(s, c, id) && IsSettled(s, t, c, id, state)
    ensures PendingIsInFlight(t) && NoCrash(t) && FinalizedMatches(t)
  {
    SettledOnlyOnce(s, c, id);
    DistinctSnoc(s.finalized, id);
    hide HasRecord, Distinct, Ids, DeliveredMatches;
    assert forall d, x :: IsInFlight(t, d, x) <==> d != c && IsInFlight(s, d, x);
  }

  lemma SettledDelivered(s: State, t: State, c: nat, id: string, state: OutboxState)
    requires Inv(s) && IsInFlight(s, c, id) && IsSettled(s, t, c, id, state)
    requires state.Published? <==> s.calls[c].Delivered?
    ensures DeliveredMatches(t)
  {
    SettledOnlyOnce(s, c, id);
    hide HasRecord, Distinct, Ids, FinalizedMatches, NoCrash;
    forall x
      ensures x in t.delivered <==>
        HasRecord(t.records, x, Published) || exists d :: IsInFlight(t, d, x) && t.calls[d].Delivered?
    {
      if exists d :: IsInFlight(s, d, x) && s.calls[d].Delivered? {
        var d :| IsInFlight(s, d, x) && s.calls[d].Delivered?;
        assert d != c ==> IsInFlight(t, d, x) && t.calls[d].Delivered?;
      }
      if exists d :: IsInFlight(t, d, x) && t.calls[d].Delivered? {
        var d :| IsInFlight(t, d, x) && t.calls[d].Delivered?;
        assert IsInFlight(s, d, x) && s.calls[d].Delivered?;
      }
    }
  }

  lemma SettleKeepsInv(s: State, c: nat, now: string)
    requires Inv(s) && Enabled(s, Settle(c, now))
    ensures Inv(Step(s, Settle(c, now)))
  {
    var t, id := Step(s, Settle(c, now)), s.calls[c].recordId;
    var state := if s.calls[c].Delivered? then Published else Failed;
    hide Inv, Step, PendingIsInFlight, NoCrash, FinalizedMatches, DeliveredMatches, Distinct, Ids, HasRecord;
    SettleStep(s, c, now);
    assert IsInFlight(s, c, id);
    SettledMatches(s, t, c, id, state);
    SettledDelivered(s, t, c, id, state);
    InvOf(t);
  }

  lemma InvOf(t: State)
    requires Distinct(Ids(t.records)) && PendingIsInFlight(t) && NoCrash(t)
    requires FinalizedMatches(t) && DeliveredMatches(t)
    ensures Inv(t)
  {
  }

  // ------------------------------------------------------------------- theorems

  /**
   * In every state of every run: the PENDING records are exactly the calls in flight, no call has met either error
   * of the outbox, each other record was finalized exactly once, and PUBLISHED records match successful publishes.
   */
  lemma {:induction false} PublishSafety(states: seq<State>, actions: seq<Action>, i: nat)
    requires IsRun(states, actions) && i < |states|
    ensures Inv(states[i])
  {
    if i > 0 {
      PublishSafety(states, actions, i - 1);
      var s, a := states[i - 1], actions[i - 1];
      assert Enabled(s, a) && states[i] == Step(s, a);
      hide Inv, Step;
      match a
      case Begin(c, id, event) => BeginKeepsInv(s, c, id, event);
      case PublishOk(c) => PublishKeepsInv(s, c, None);
      case PublishThrows(c, reason) => PublishKeepsInv(s, c, Some(reason));
      case Settle(c, now) => SettleKeepsInv(s, c, now);
    }
  }

  /** Once no call is in flight, nothing is PENDING and the successful publishes are exactly the PUBLISHED records. */
  lemma AfterAllCalls(states: seq<State>, actions: seq<Action>, i: nat)
    requires IsRun(states, actions) && i < |states|
    requires forall c <- states[i].calls :: !InFlight(states[i].calls[c])
    ensures var s := states[i];
      && (forall r <- s.records :: !r.state.Pending?)
      && (forall c <- s.calls :: s.calls[c].Done?)
      && Distinct(s.delivered) && forall id :: id in s.delivered <==> HasRecord(s.records, id, Published)
  {
    PublishSafety(states, actions, i);
    var s := states[i];
    assert forall r <- s.records :: HasRecord(s.records, r.id, r.state);
    forall id
      ensures id in s.delivered <==> HasRecord(s.records, id, Published)
    {
      hide HasRecord;
      assert forall c :: !IsInFlight(s, c, id);
    }
  }
}
