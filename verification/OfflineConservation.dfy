/** Which accepted mutations interleaved replays keep, and which they lose. */
module OfflineConservation {
  import opened OfflineQueue

  /** A replay under way that has read the item will put it back or has sent it. */
  ghost predicate InReplay(s: State, item: Item) {
    exists id <- s.replays :: item in s.replays[id].snapshot
  }

  ghost predicate Held(s: State, item: Item) {
    item in s.queue || item in s.sent || InReplay(s, item)
  }

  /** Nothing is lost: every item ever accepted is queued, sent, or with a replay under way. */
  ghost predicate AllHeld(s: State) {
    forall item <- s.accepted :: Held(s, item)
  }

  /** No unsent item of the queue is overwritten: some replay under way has read it. */
  ghost predicate NothingUnread(s: State) {
    forall item <- s.queue :: item in s.sent || InReplay(s, item)
  }

  /** The replay that finishes has each item it read among those it puts back or those that were sent. */
  lemma SnapshotSettled(s: State, id: nat)
    requires Inv(s) && Enabled(s, Finish(id))
    ensures forall item <- s.replays[id].snapshot :: item in s.replays[id].remaining || item in s.sent
  {
    var r := s.replays[id];
    assert ReplayOk(s, r);
    assert r.snapshot[..r.pos] == r.snapshot;
  }

  /** What a finish leaves of an item: nothing, exactly if it is queued, unsent and read by no replay under way. */
  lemma HeldAfterFinish(s: State, id: nat, item: Item)
    requires Inv(s) && Enabled(s, Finish(id)) && Held(s, item)
    ensures Held(Step(s, Finish(id)), item) <==> item in s.sent || InReplay(s, item)
  {
    var t, r := Step(s, Finish(id)), s.replays[id];
    assert ReplayOk(s, r);
    SnapshotSettled(s, id);
    hide DistinctKeys;
    if other :| other in s.replays && item in s.replays[other].snapshot {
      assert other != id ==> other in t.replays && t.replays[other] == s.replays[other];
    }
    if InReplay(t, item) {
      var other :| other in t.replays && item in t.replays[other].snapshot;
      assert other in s.replays;
    }
  }

  ghost predicate InOtherReplay(s: State, id: nat, item: Item) {
    exists other <- s.replays :: other != id && item in s.replays[other].snapshot
  }

  /** Each item that the replay has read is queued, sent, or read by another replay under way. */
  ghost predicate NothingOnlyIn(s: State, id: nat)
    requires id in s.replays
  {
    forall item <- s.replays[id].snapshot :: item in s.queue || item in s.sent || InOtherReplay(s, id, item)
  }

  lemma HeldAfterAbandon(s: State, id: nat, item: Item)
    requires Enabled(s, Abandon(id))
    ensures Held(Step(s, Abandon(id)), item) <==> item in s.queue || item in s.sent || InOtherReplay(s, id, item)
  {
    var t := Step(s, Abandon(id));
    if other :| other in s.replays && other != id && item in s.replays[other].snapshot {
      assert other in t.replays && item in t.replays[other].snapshot;
    }
    if InReplay(t, item) {
      var other :| other in t.replays && item in t.replays[other].snapshot;
      assert other in s.replays && other != id;
    }
  }

  lemma HeldElsewhere(s: State, a: Action, item: Item)
    requires Inv(s) && Enabled(s, a) && !a.Finish? && !a.Abandon? && Held(s, item)
    ensures Held(Step(s, a), item)
  {
    var t := Step(s, a);
    hide DistinctKeys, ReplayOk;
    if id :| id in s.replays && item in s.replays[id].snapshot {
      assert id in t.replays && item in t.replays[id].snapshot;
    }
  }

  /** What an end of a replay must not do: overwrite an unread item, or close on the only replay that holds one. */
  ghost predicate EndsSafely(s: State, a: Action) {
    && (a.Finish? ==> NothingUnread(s))
    && (a.Abandon? && a.id in s.replays ==> NothingOnlyIn(s, a.id))
  }

  /**
   * Where items get lost: only when a replay ends. A finish loses one exactly if an unsent item of the queue is unread,
   * and an abandoned replay exactly if it has read an unsent item that is neither queued nor read by another.
   */
  lemma LostOnlyAtEnd(s: State, a: Action)
    requires Inv(s) && AllHeld(s) && Enabled(s, a)
    ensures AllHeld(Step(s, a)) <==> EndsSafely(s, a)
  {
    NewIsHeld(s, a);
    QueuedIsHeld(s);
    QueueAccepted(s);
    hide Held, InReplay, InOtherReplay, ReplayOk, DistinctKeys, Inv;
    if a.Finish? {
      forall item <- s.accepted
        ensures Held(Step(s, a), item) <==> item in s.sent || InReplay(s, item)
      {
        HeldAfterFinish(s, a.id, item);
      }
    } else if a.Abandon? {
      AbandonKeepsIff(s, a.id);
    } else {
      forall item <- s.accepted
        ensures Held(Step(s, a), item)
      {
        HeldElsewhere(s, a, item);
      }
    }
  }

  lemma AbandonKeepsIff(s: State, id: nat)
    requires Inv(s) && AllHeld(s) && Enabled(s, Abandon(id))
    ensures AllHeld(Step(s, Abandon(id))) <==> NothingOnlyIn(s, id)
  {
    forall item: Item
      ensures Held(Step(s, Abandon(id)), item) <==> item in s.queue || item in s.sent || InOtherReplay(s, id, item)
      ensures InReplay(s, item) <==> item in s.replays[id].snapshot || InOtherReplay(s, id, item)
    {
      HeldAfterAbandon(s, id, item);
    }
    assert ReplayOk(s, s.replays[id]);
    hide Held, InReplay, InOtherReplay, DistinctKeys;
    QueuedIsHeld(s);
  }

  lemma QueueAccepted(s: State)
    requires Inv(s)
    ensures forall item <- s.queue :: item in s.accepted
  {
  }

  lemma NewIsHeld(s: State, a: Action)
    requires Enabled(s, a)
    ensures forall item <- Step(s, a).accepted :: item in s.accepted || Held(Step(s, a), item)
    ensures a.Finish? || a.Abandon? ==> Step(s, a).accepted == s.accepted
  {
  }

  lemma QueuedIsHeld(s: State)
    requires AllHeld(s)
    ensures forall item <- s.accepted :: item in s.queue || item in s.sent || InReplay(s, item)
  {
    hide InReplay;
  }

  ghost predicate AllEndSafely(states: seq<State>, actions: seq<Action>)
    requires |states| == |actions| + 1
  {
    forall i :: 0 <= i < |actions| ==> EndsSafely(states[i], actions[i])
  }

  lemma {:induction false} HeldUpTo(states: seq<State>, actions: seq<Action>, i: nat)
    requires IsRun(states, actions) && i < |states| && AllEndSafely(states, actions)
    ensures AllHeld(states[i])
  {
    if i > 0 {
      HeldUpTo(states, actions, i - 1);
      QueueSafety(states, actions, i - 1);
      hide Inv, AllHeld, EndsSafely, Step;
      assert IsStep(states[i - 1], actions[i - 1], states[i - 1 + 1]);
      LostOnlyAtEnd(states[i - 1], actions[i - 1]);
    } else {
      assert AllHeld(states[0]);
    }
  }

  /**
   * Over a whole run nothing is ever lost exactly when no replay, as it finishes, overwrites an unsent item that no
   * replay under way has read, and none is abandoned that alone holds an unsent item.
   */
  lemma NothingLostIff(states: seq<State>, actions: seq<Action>)
    requires IsRun(states, actions)
    ensures (forall s <- states :: AllHeld(s)) <==> AllEndSafely(states, actions)
  {
    hide AllHeld, EndsSafely, Step, Enabled, Init;
    if forall s <- states :: AllHeld(s) {
      forall i | 0 <= i < |actions|
        ensures EndsSafely(states[i], actions[i])
      {
        QueueSafety(states, actions, i);
        assert states[i] in states && states[i + 1] in states && IsStep(states[i], actions[i], states[i + 1]);
        LostOnlyAtEnd(states[i], actions[i]);
      }
    }
    if AllEndSafely(states, actions) {
      forall s <- states
        ensures AllHeld(s)
      {
        var i :| 0 <= i < |states| && states[i] == s;
        HeldUpTo(states, actions, i);
      }
    }
  }

  /** Once no replay is under way, a run that loses nothing has every accepted item queued or sent. */
  lemma NothingLostAtRest(states: seq<State>, actions: seq<Action>, i: nat)
    requires IsRun(states, actions) && AllEndSafely(states, actions) && i < |states| && states[i].replays == map[]
    ensures Conserved(states[i])
  {
    HeldUpTo(states, actions, i);
  }

  /** Every accepted item is queued or sent. */
  ghost predicate Conserved(s: State) {
    forall item <- s.accepted :: item in s.queue || item in s.sent
  }

  /** No item is accepted while a replay is under way. */
  ghost predicate NoneAcceptedDuringReplay(states: seq<State>, actions: seq<Action>) {
    forall i :: 0 <= i < |actions| && i < |states| && actions[i].Enqueue? ==>
      states[i].replays == map[] || HasKey(states[i].queue, actions[i].item.idempotencyKey)
  }

  /** Each replay under way has read all that is not yet sent. */
  ghost predicate ReplaysSeeAll(s: State) {
    forall id <- s.replays, item <- s.accepted :: item in s.sent || item in s.replays[id].snapshot
  }

  /** However many replays overlap, nothing is lost as long as no item is accepted while one is under way. */
  lemma {:induction false} OverlappingReplaysLoseNothing(states: seq<State>, actions: seq<Action>, i: nat)
    requires IsRun(states, actions) && NoneAcceptedDuringReplay(states, actions) && i < |states|
    ensures Conserved(states[i]) && ReplaysSeeAll(states[i])
  {
    if i > 0 {
      var s, a := states[i - 1], actions[i - 1];
      OverlappingReplaysLoseNothing(states, actions, i - 1);
      QueueSafety(states, actions, i - 1);
      assert IsStep(s, a, states[i - 1 + 1]);
      if a.Finish? {
        SnapshotSettled(s, a.id);
      }
      hide DistinctKeys;
    }
  }

  /** Two replays under way, of which the second alone has read the second item, and the first one has just finished. */
  lemma HeldByOneReplay(first: Item, second: Item) returns (states: seq<State>, actions: seq<Action>)
    requires first.idempotencyKey != second.idempotencyKey
    ensures IsRun(states, actions) && AllEndSafely(states, actions) && |states| == 6
    ensures actions == [Start(0), Enqueue(second), Start(1), CallOk(0), Finish(0)]
    ensures var both := [first, second];
      states[5] == State([], map[1 := Replay(both, 0, [])], {first, second}, {first})
  {
    actions := [Start(0), Enqueue(second), Start(1), CallOk(0), Finish(0)];
    var one, both := [first], [first, second];
    var known := {first} + {second};
    var s0 := State(one, map[], {first}, {});
    var s1 := State(one, map[][0 := Replay(one, 0, [])], {first}, {});
    var s2 := State(both, s1.replays, known, {});
    var s3 := State(both, s1.replays[1 := Replay(both, 0, [])], known, {});
    var s4 := State(both, s3.replays[0 := Replay(one, 1, [])], known, {first});
    var s5 := State([], s4.replays - {0}, known, {first});
    states := [s0, s1, s2, s3, s4, s5];
    assert IsStep(s0, actions[0], s1) && IsStep(s1, actions[1], s2) && IsStep(s2, actions[2], s3);
    assert IsStep(s3, actions[3], s4) by {
      assert {} + {first} == {first};
    }
    assert IsStep(s4, actions[4], s5);
    assert EndsSafely(s4, actions[4]) by {
      assert 1 in s4.replays && s4.replays[1].snapshot == both;
    }
    hide IsStep;
    assert Init(s0);
    assert s5.replays == map[1 := Replay(both, 0, [])] && known == {first, second};
    hide EndsSafely;
    assert AllEndSafely(states, actions) by {
      StepsEndSafely(states, actions);
    }
  }

  lemma StepsEndSafely(states: seq<State>, actions: seq<Action>)
    requires |states| == |actions| + 1
    requires forall i :: 0 <= i < |actions| ==>
      (actions[i].Finish? || actions[i].Abandon? ==> EndsSafely(states[i], actions[i]))
    ensures AllEndSafely(states, actions)
  {
  }

  /**
   * A finish that overwrites an item which it had not read, but another replay had: the other replay puts it back.
   * Nothing is lost, although between the two finishes the item is neither queued nor sent.
   */
  lemma ReadByAnotherReplay(first: Item, second: Item) returns (states: seq<State>, actions: seq<Action>)
    requires first.idempotencyKey != second.idempotencyKey
    ensures IsRun(states, actions) && AllEndSafely(states, actions) && |states| == 9
    ensures actions == [
      Start(0), Enqueue(second), Start(1), CallOk(0), Finish(0), CallOk(1), CallFails(1), Finish(1)]
    ensures second in states[5].accepted && second !in states[5].queue && second !in states[5].sent
    ensures states[8].queue == [second] && states[8].replays == map[]
  {
    states, actions := HeldByOneReplay(first, second);
    var s5, both := states[5], [first, second];
    var s6 := s5.(replays := map[1 := Replay(both, 1, [])]);
    var s7 := s5.(replays := map[1 := Replay(both, 2, [second])]);
    var s8 := s5.(replays := map[], queue := [second]);
    assert IsStep(s5, CallOk(1), s6) by {
      assert {first} + {first} == {first};
    }
    assert IsStep(s6, CallFails(1), s7) by {
      assert both[1] == second && [] + [second] == [second];
    }
    assert IsStep(s7, Finish(1), s8) by {
      assert s7.replays - {1} == map[];
    }
    assert EndsSafely(s7, Finish(1));
    states, actions := OneStepMore(states, actions, CallOk(1), s6);
    states, actions := OneStepMore(states, actions, CallFails(1), s7);
    states, actions := OneStepMore(states, actions, Finish(1), s8);
  }

  lemma OneStepMore(states: seq<State>, actions: seq<Action>, a: Action, t: State)
    returns (more: seq<State>, moreActions: seq<Action>)
    requires IsRun(states, actions) && AllEndSafely(states, actions) && IsStep(states[|states| - 1], a, t)
    requires EndsSafely(states[|states| - 1], a)
    ensures more == states + [t] && moreActions == actions + [a]
    ensures IsRun(more, moreActions) && AllEndSafely(more, moreActions)
  {
    hide IsStep, EndsSafely, Init;
    more, moreActions := states + [t], actions + [a];
  }

  /** The same run, but the page of the second replay closes before its calls are answered: the item is lost. */
  lemma AbandonedReplayLoses(first: Item, second: Item) returns (states: seq<State>, actions: seq<Action>)
    requires first.idempotencyKey != second.idempotencyKey
    ensures IsRun(states, actions) && !AllEndSafely(states, actions)
    ensures actions == [Start(0), Enqueue(second), Start(1), CallOk(0), Finish(0), Abandon(1)]
    ensures var end := states[|states| - 1];
      end.replays == map[] && second in end.accepted && second !in end.queue && second !in end.sent
  {
    states, actions := HeldByOneReplay(first, second);
    var s5 := states[5];
    var s6 := s5.(replays := map[]);
    assert IsStep(s5, Abandon(1), s6) by {
      assert s5.replays - {1} == map[];
    }
    states, actions := states + [s6], actions + [Abandon(1)];
    hide IsStep;
    assert second in s5.replays[1].snapshot && !EndsSafely(s5, Abandon(1));
    assert !EndsSafely(states[5], actions[5]);
  }

  /** An item accepted while a replay awaits its call is overwritten when the replay finishes, though never sent. */
  lemma AcceptedDuringReplayIsLost(first: Item, second: Item) returns (states: seq<State>, actions: seq<Action>)
    requires first.idempotencyKey != second.idempotencyKey
    ensures IsRun(states, actions)
    ensures var end := states[|states| - 1];
      second in end.accepted && second !in end.queue && second !in end.sent
  {
    var s0 := State([first], map[], {first}, {});
    actions := [Start(0), Enqueue(second), CallOk(0), Finish(0)];
    var s1 := Step(s0, Start(0));
    var s2 := Step(s1, Enqueue(second));
    var s3 := Step(s2, CallOk(0));
    var s4 := Step(s3, Finish(0));
    states := [s0, s1, s2, s3, s4];
    assert (set item <- [first]) == {first};
  }
}
