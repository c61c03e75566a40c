/** When a mutation that was sent is queued again: interleaved replays, and pages that close on one. */
module OfflineSentAgain {
  import opened OfflineQueue

  // ---------------------------------------------------------------------- one step

  ghost predicate NoSentQueued(s: State) {
    forall item <- s.queue :: item !in s.sent
  }

  ghost predicate PutsUnsentItem(s: State, a: Action) {
    a.Enqueue? && a.item in s.sent ==> HasKey(s.queue, a.item.idempotencyKey)
  }

  /** What a step of a run at rest, or one that brings it to rest, must not do: leave a sent item in the queue. */
  ghost predicate PutsUnsent(s: State, a: Action) {
    match a
    case Finish(id) => id in s.replays ==> forall item <- s.replays[id].remaining :: item !in s.sent
    case Enqueue(_) => PutsUnsentItem(s, a)
    case Abandon(_) => NoSentQueued(s)
    case _ => true
  }

  ghost predicate RestsClean(states: seq<State>) {
    forall s <- states :: s.replays == map[] ==> NoSentQueued(s)
  }

  ghost predicate StepsToRestPutUnsent(states: seq<State>, actions: seq<Action>)
    requires |states| == |actions| + 1
  {
    forall i | 0 <= i < |actions| :: LeavesUnsent(states, actions, i)
  }

  /** If step i brings the run to rest, or finds it there, it leaves no sent item in the queue. */
  ghost predicate LeavesUnsent(states: seq<State>, actions: seq<Action>, i: int)
    requires |states| == |actions| + 1 && 0 <= i < |actions|
  {
    states[i + 1].replays == map[] ==> PutsUnsent(states[i], actions[i])
  }

  lemma RestIsClean(s: State, a: Action)
    requires Enabled(s, a) && (s.replays == map[] ==> NoSentQueued(s))
    ensures Step(s, a).replays == map[] ==> (NoSentQueued(Step(s, a)) <==> PutsUnsent(s, a))
  {
    if a.Start? || a.CallOk? || a.CallFails? {
      assert a.id in Step(s, a).replays;
    }
  }

  lemma {:induction false} CleanUpTo(states: seq<State>, actions: seq<Action>, i: nat)
    requires IsRun(states, actions) && i < |states| && StepsToRestPutUnsent(states, actions)
    ensures states[i].replays == map[] ==> NoSentQueued(states[i])
  {
    if i > 0 {
      var s, a := states[i - 1], actions[i - 1];
      CleanUpTo(states, actions, i - 1);
      assert IsStep(s, a, states[i - 1 + 1]) && states[i - 1 + 1] == states[i];
      hide Step, PutsUnsent, NoSentQueued, Init;
      if states[i].replays == map[] {
        assert LeavesUnsent(states, actions, i - 1);
        RestIsClean(s, a);
      }
    }
  }

  lemma CleanStepByStep(states: seq<State>, actions: seq<Action>)
    requires IsRun(states, actions)
    ensures RestsClean(states) <==> StepsToRestPutUnsent(states, actions)
  {
    if RestsClean(states) {
      hide Step, PutsUnsent, NoSentQueued, Init, Enabled;
      forall i | 0 <= i < |actions|
        ensures LeavesUnsent(states, actions, i)
      {
        assert states[i] in states && states[i + 1] in states && IsStep(states[i], actions[i], states[i + 1]);
        RestIsClean(states[i], actions[i]);
      }
    }
    if StepsToRestPutUnsent(states, actions) {
      forall s <- states
        ensures s.replays == map[] ==> NoSentQueued(s)
      {
        var i :| 0 <= i < |states| && states[i] == s;
        CleanUpTo(states, actions, i);
      }
    }
  }

  // ------------------------------------------------------------------ by the calls

  /** The call on the item goes through. */
  ghost predicate Sends(s: State, a: Action, item: Item) {
    a.CallOk? && Enabled(s, a) && s.replays[a.id].snapshot[s.replays[a.id].pos] == item
  }

  /** The call of the replay on the item fails. */
  ghost predicate FailsOn(s: State, a: Action, id: nat, item: Item) {
    a == CallFails(id) && Enabled(s, a) && s.replays[id].snapshot[s.replays[id].pos] == item
  }

  /** A call on the item went through before step e. */
  ghost predicate WasSent(states: seq<State>, actions: seq<Action>, e: int, item: Item)
    requires 0 <= e <= |actions| && |states| == |actions| + 1
  {
    exists i | 0 <= i < e :: Sends(states[i], actions[i], item)
  }

  ghost predicate NotRestarted(actions: seq<Action>, i: int, e: int, id: nat)
    requires 0 <= i <= e <= |actions|
  {
    forall m | i < m < e :: actions[m] != Start(id)
  }

  /** Step i, before e, is a failed call of the replay on the item, and the replay has not started again since. */
  ghost predicate FailedAt(states: seq<State>, actions: seq<Action>, i: int, e: int, id: nat, item: Item)
    requires 0 <= e <= |actions| && |states| == |actions| + 1
  {
    0 <= i < e && FailsOn(states[i], actions[i], id, item) && NotRestarted(actions, i, e, id)
  }

  ghost predicate HasFailed(states: seq<State>, actions: seq<Action>, e: int, id: nat, item: Item)
    requires 0 <= e <= |actions| && |states| == |actions| + 1
  {
    exists i :: FailedAt(states, actions, i, e, id, item)
  }

  lemma StepAt(states: seq<State>, actions: seq<Action>, i: nat)
    requires IsRun(states, actions)
    ensures |states| == |actions| + 1 && Init(states[0])
    ensures i < |actions| ==> Enabled(states[i], actions[i]) && states[i + 1] == Step(states[i], actions[i])
  {
    hide Enabled, Step, Init;
    assert i < |actions| ==> IsStep(states[i], actions[i], states[i + 1]);
  }

  lemma WasSentOneMore(states: seq<State>, actions: seq<Action>, e: nat, item: Item)
    requires 0 < e <= |actions| && |states| == |actions| + 1
    ensures WasSent(states, actions, e, item)
       <==> WasSent(states, actions, e - 1, item) || Sends(states[e - 1], actions[e - 1], item)
  {
    hide Sends;
  }

  lemma StepSends(s: State, a: Action, item: Item)
    requires Enabled(s, a)
    ensures item in Step(s, a).sent <==> item in s.sent || Sends(s, a, item)
  {
  }

  /** What was sent is what a call went through on. */
  lemma {:induction false} SentByCall(states: seq<State>, actions: seq<Action>, e: nat, item: Item)
    requires IsRun(states, actions) && e < |states|
    ensures |states| == |actions| + 1
    ensures item in states[e].sent <==> WasSent(states, actions, e, item)
  {
    StepAt(states, actions, 0);
    if e > 0 {
      hide *;
      SentByCall(states, actions, e - 1, item);
      StepAt(states, actions, e - 1);
      StepSends(states[e - 1], actions[e - 1], item);
      WasSentOneMore(states, actions, e, item);
    }
  }

  lemma HasFailedOneMore(states: seq<State>, actions: seq<Action>, e: nat, id: nat, item: Item)
    requires 0 < e <= |actions| && |states| == |actions| + 1
    ensures HasFailed(states, actions, e, id, item) <==>
      || (HasFailed(states, actions, e - 1, id, item) && actions[e - 1] != Start(id))
      || FailsOn(states[e - 1], actions[e - 1], id, item)
  {
    hide FailsOn;
    if FailsOn(states[e - 1], actions[e - 1], id, item) {
      assert FailedAt(states, actions, e - 1, e, id, item);
    }
    if HasFailed(states, actions, e - 1, id, item) && actions[e - 1] != Start(id) {
      var i :| FailedAt(states, actions, i, e - 1, id, item);
      assert FailedAt(states, actions, i, e, id, item);
    }
    if i :| FailedAt(states, actions, i, e, id, item) && i < e - 1 {
      assert FailedAt(states, actions, i, e - 1, id, item);
    }
  }

  lemma StepFails(s: State, a: Action, id: nat, item: Item)
    requires Enabled(s, a) && id in Step(s, a).replays
    ensures id !in s.replays ==> a == Start(id)
    ensures item in Step(s, a).replays[id].remaining <==>
      a != Start(id) && ((id in s.replays && item in s.replays[id].remaining) || FailsOn(s, a, id, item))
  {
  }

  /** What a replay puts back is what its calls failed on since it started. */
  lemma {:induction false} PutBackByCall(states: seq<State>, actions: seq<Action>, e: nat, id: nat, item: Item)
    requires IsRun(states, actions) && e < |states| && id in states[e].replays
    ensures |states| == |actions| + 1
    ensures item in states[e].replays[id].remaining <==> HasFailed(states, actions, e, id, item)
  {
    StepAt(states, actions, 0);
    assert e > 0;
    StepAt(states, actions, e - 1);
    var s, a := states[e - 1], actions[e - 1];
    StepFails(s, a, id, item);
    HasFailedOneMore(states, actions, e, id, item);
    assert a == Start(id) ==> !FailsOn(s, a, id, item);
    hide *;
    if id in s.replays {
      PutBackByCall(states, actions, e - 1, id, item);
    }
  }

  /** The last replay to end puts back an item that a call of its own failed on and another call sent. */
  ghost predicate PutsBackSent(states: seq<State>, actions: seq<Action>, e: int, item: Item)
    requires |states| == |actions| + 1
  {
    && 0 <= e < |actions| && actions[e].Finish? && states[e + 1].replays == map[]
    && HasFailed(states, actions, e, actions[e].id, item) && WasSent(states, actions, e, item)
  }

  /** An item that a call sent is accepted at rest. */
  ghost predicate AcceptsSent(states: seq<State>, actions: seq<Action>, e: int, item: Item)
    requires |states| == |actions| + 1
  {
    && 0 <= e < |actions| && actions[e] == Enqueue(item) && states[e].replays == map[]
    && !HasKey(states[e].queue, item.idempotencyKey) && WasSent(states, actions, e, item)
  }

  /** The last replay to end is abandoned, and the queue still holds an item that a call sent. */
  ghost predicate LeavesSent(states: seq<State>, actions: seq<Action>, e: int, item: Item)
    requires |states| == |actions| + 1
  {
    && 0 <= e < |actions| && actions[e].Abandon? && states[e + 1].replays == map[]
    && item in states[e].queue && WasSent(states, actions, e, item)
  }

  ghost predicate SendsAgain(states: seq<State>, actions: seq<Action>, e: int)
    requires |states| == |actions| + 1
  {
    exists item ::
      || PutsBackSent(states, actions, e, item)
      || AcceptsSent(states, actions, e, item)
      || LeavesSent(states, actions, e, item)
  }

  lemma UnsentByCalls(states: seq<State>, actions: seq<Action>, e: nat)
    requires IsRun(states, actions) && e < |actions|
    ensures |states| == |actions| + 1
    ensures LeavesUnsent(states, actions, e) <==> !SendsAgain(states, actions, e)
  {
    StepAt(states, actions, e);
    var s, a, t := states[e], actions[e], states[e + 1];
    assert a.Enqueue? ==> t.replays == s.replays;
    assert a.Start? || a.CallOk? || a.CallFails? ==> a.id in t.replays;
    assert a.Finish? ==> a.id in s.replays;
    forall item
      ensures item in s.sent <==> WasSent(states, actions, e, item)
      ensures a.Finish? ==> (item in s.replays[a.id].remaining <==> HasFailed(states, actions, e, a.id, item))
    {
      SentByCall(states, actions, e, item);
      if a.Finish? {
        PutBackByCall(states, actions, e, a.id, item);
      }
    }
    hide IsRun, Step, Enabled, HasFailed, WasSent;
    CaseByCase(states, actions, e);
  }

  lemma CaseByCase(states: seq<State>, actions: seq<Action>, e: nat)
    requires |states| == |actions| + 1 && e < |actions|
    requires var s, a, t := states[e], actions[e], states[e + 1];
      && (a.Enqueue? ==> t.replays == s.replays)
      && (a.Start? || a.CallOk? || a.CallFails? ==> a.id in t.replays)
      && (a.Finish? ==> a.id in s.replays)
      && (forall item :: item in s.sent <==> WasSent(states, actions, e, item))
      && (a.Finish? ==> forall item ::
        item in s.replays[a.id].remaining <==> HasFailed(states, actions, e, a.id, item))
    ensures LeavesUnsent(states, actions, e) <==> !SendsAgain(states, actions, e)
  {
    hide HasFailed, WasSent;
    var s, a, t := states[e], actions[e], states[e + 1];
    if t.replays == map[] && !PutsUnsent(s, a) {
      match a
      case Finish(id) =>
        var item :| item in s.replays[id].remaining && item in s.sent;
        assert PutsBackSent(states, actions, e, item);
      case Enqueue(item) =>
        assert AcceptsSent(states, actions, e, item);
      case Abandon(_) =>
        var item :| item in s.queue && item in s.sent;
        assert LeavesSent(states, actions, e, item);
    }
  }

  /**
   * Over a whole run the queue at rest never holds an item that was sent, exactly when none of three things happens:
   * the last replay to end failed on an item that another call sent; the last replay to end is abandoned while the
   * queue holds an item that a call sent; an item that a call sent is accepted at rest.
   */
  lemma SentAgainIff(states: seq<State>, actions: seq<Action>)
    requires IsRun(states, actions)
    ensures |states| == |actions| + 1
    ensures RestsClean(states) <==> forall e | 0 <= e < |actions| :: !SendsAgain(states, actions, e)
  {
    StepAt(states, actions, 0);
    CleanStepByStep(states, actions);
    hide IsRun, RestsClean, LeavesUnsent, SendsAgain;
    forall e | 0 <= e < |actions|
      ensures LeavesUnsent(states, actions, e) <==> !SendsAgain(states, actions, e)
    {
      UnsentByCalls(states, actions, e);
    }
  }

  // --------------------------------------------------------- replays that do not overlap

  /**
   * Each replay starts with no other under way, none is abandoned while a sent item is queued, and no item is accepted
   * again after it was sent.
   */
  ghost predicate OneAtATime(states: seq<State>, actions: seq<Action>)
    requires |states| == |actions| + 1
  {
    forall i :: 0 <= i < |actions| ==>
      && (actions[i].Start? ==> states[i].replays == map[])
      && (actions[i].Abandon? ==> NoSentQueued(states[i]))
      && PutsUnsentItem(states[i], actions[i])
  }

  /** Nothing that the replay has put back, or has still to send, was sent. */
  ghost predicate ReplayUnsent(s: State, r: Replay) {
    && (forall item <- r.remaining :: item !in s.sent)
    && (forall k :: r.pos <= k < |r.snapshot| ==> r.snapshot[k] !in s.sent)
  }

  ghost predicate HoldsUnsent(s: State) {
    && (s.replays == map[] ==> NoSentQueued(s))
    && (forall i, j :: i in s.replays && j in s.replays ==> i == j)
    && (forall id <- s.replays :: ReplayUnsent(s, s.replays[id]))
  }

  /** The item of the next call is neither among those put back nor called again. */
  lemma CalledOnce(s: State, r: Replay)
    requires ReplayOk(s, r) && r.pos < |r.snapshot|
    ensures r.snapshot[r.pos] !in r.remaining
    ensures forall k :: r.pos < k < |r.snapshot| ==> r.snapshot[k] != r.snapshot[r.pos]
  {
    var all, n, item := r.remaining + r.snapshot[r.pos..], |r.remaining|, r.snapshot[r.pos];
    assert all[n] == item;
    forall k | r.pos < k < |r.snapshot|
      ensures r.snapshot[k] != item
    {
      assert all[n + k - r.pos] == r.snapshot[k];
    }
    forall k | 0 <= k < n
      ensures r.remaining[k] != item
    {
      assert all[k] == r.remaining[k];
    }
  }

  lemma StepHoldsUnsent(s: State, a: Action)
    requires Inv(s) && HoldsUnsent(s) && Enabled(s, a)
    requires (a.Start? ==> s.replays == map[]) && (a.Abandon? ==> NoSentQueued(s)) && PutsUnsentItem(s, a)
    ensures HoldsUnsent(Step(s, a))
  {
    if a.CallOk? || a.CallFails? {
      assert ReplayOk(s, s.replays[a.id]) && ReplayUnsent(s, s.replays[a.id]);
      CalledOnce(s, s.replays[a.id]);
      assert a.id in Step(s, a).replays;
    }
    if a.Finish? {
      assert ReplayUnsent(s, s.replays[a.id]);
    }
    hide ReplayOk, DistinctKeys;
    if a.Enqueue? {
      assert forall id <- s.replays :: ReplayUnsent(s, s.replays[id]);
    }
  }

  /** Replays that run one at a time to their ends leave no sent item in the queue. */
  lemma {:induction false} OneAtATimeSendsOnce(states: seq<State>, actions: seq<Action>, i: nat)
    requires IsRun(states, actions) && OneAtATime(states, actions) && i < |states|
    ensures HoldsUnsent(states[i])
  {
    if i > 0 {
      OneAtATimeSendsOnce(states, actions, i - 1);
      QueueSafety(states, actions, i - 1);
      assert IsStep(states[i - 1], actions[i - 1], states[i - 1 + 1]);
      hide Inv, HoldsUnsent, Step;
      StepHoldsUnsent(states[i - 1], actions[i - 1]);
    }
  }

  /** Two replays that overlap: one sends the item, the other fails on it, finishes last, and queues it again. */
  lemma OverlapQueuesSentItem(item: Item) returns (states: seq<State>, actions: seq<Action>)
    ensures IsRun(states, actions) && |states| == 7
    ensures actions == [Start(0), Start(1), CallOk(0), Finish(0), CallFails(1), Finish(1)]
    ensures states[6].replays == map[] && states[6].queue == [item] && item in states[6].sent
  {
    actions := [Start(0), Start(1), CallOk(0), Finish(0), CallFails(1), Finish(1)];
    var queue := [item];
    var s0 := State(queue, map[], {item}, {});
    var s1 := State(queue, map[][0 := Replay(queue, 0, [])], {item}, {});
    var s2 := State(queue, s1.replays[1 := Replay(queue, 0, [])], {item}, {});
    var s3 := State(queue, s2.replays[0 := Replay(queue, 1, [])], {item}, {item});
    var s4 := State([], s3.replays - {0}, {item}, {item});
    var s5 := State([], s4.replays[1 := Replay(queue, 1, [item])], {item}, {item});
    var s6 := State([item], map[], {item}, {item});
    states := [s0, s1, s2, s3, s4, s5, s6];
    assert IsStep(s0, actions[0], s1) && IsStep(s1, actions[1], s2);
    assert IsStep(s2, actions[2], s3) by {
      assert {} + {item} == {item};
    }
    assert IsStep(s3, actions[3], s4);
    assert IsStep(s4, actions[4], s5) by {
      assert [] + [item] == [item];
    }
    assert IsStep(s5, actions[5], s6) by {
      assert s5.replays - {1} == map[];
    }
    hide IsStep;
    assert (set x <- queue) == {item};
  }
}
