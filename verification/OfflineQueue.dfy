/** The web client's offline mutation queue, alone and under interleaved replays. */
module OfflineQueue {
  import opened Options
  import opened Lists

  datatype Item = Item(path: string, verb: string, body: Option<string>, idempotencyKey: string, queuedAt: string)

  ghost predicate DistinctKeys(queue: seq<Item>) {
    forall i, j :: 0 <= i < j < |queue| ==> queue[i].idempotencyKey != queue[j].idempotencyKey
  }

  predicate HasKey(queue: seq<Item>, key: string) {
    exists item <- queue :: item.idempotencyKey == key
  }

  function Enqueued(queue: seq<Item>, item: Item): seq<Item> {
    if HasKey(queue, item.idempotencyKey) then queue else queue + [item]
  }

  /** The items whose call failed, in their order. */
  function Failed(queue: seq<Item>, succeeds: nat -> bool): seq<Item> {
    if queue == [] then []
    else
      var last := |queue| - 1;
      Failed(queue[..last], succeeds) + if succeeds(last) then [] else [queue[last]]
  }

  function Sent(queue: seq<Item>, succeeds: nat -> bool): seq<Item> {
    if queue == [] then []
    else
      var last := |queue| - 1;
      Sent(queue[..last], succeeds) + if succeeds(last) then [queue[last]] else []
  }

  /** The queue as the browser's local storage holds it. */
  class LocalStorage {
    var queue: seq<Item>

    method QueueMutation(path: string, verb: string, body: Option<string>, idempotencyKey: string, now: string)
      requires DistinctKeys(queue)
      modifies this
      ensures DistinctKeys(queue)
      ensures queue == (
        if exists item <- old(queue) :: item.idempotencyKey == idempotencyKey then old(queue)
        else old(queue) + [Item(path, verb, body, idempotencyKey, now)])
    {
      var q := queue;
      if !HasKey(q, idempotencyKey) {
        q := q + [Item(path, verb, body, idempotencyKey, now)];
        queue := q;
      }
    }

    /**
     * A replay that nothing interrupts; `succeeds` says which of its calls go through. Afterwards the queue is exactly
     * the failed items in their order, and every other item was sent.
     */
    method ReplayOfflineQueue(succeeds: nat -> bool) returns (sent: seq<Item>)
      modifies this
      ensures queue == Failed(old(queue), succeeds) && sent == Sent(old(queue), succeeds)
    {
      sent := [];
      var snapshot := queue;
      if |snapshot| == 0 {
        return;
      }
      var remaining: seq<Item> := [];
      for i := 0 to |snapshot|
        invariant remaining == Failed(snapshot[..i], succeeds) && sent == Sent(snapshot[..i], succeeds)
      {
        assert snapshot[..i + 1][..i] == snapshot[..i];
        if succeeds(i) {
          sent := sent + [snapshot[i]];
        } else {
          remaining := remaining + [snapshot[i]];
        }
      }
      assert snapshot[..|snapshot|] == snapshot;
      queue := remaining;
    }
  }

  lemma {:induction false} KeptOrSent(queue: seq<Item>, succeeds: nat -> bool, k: nat)
    requires k <= |queue|
    ensures SharedOut(Failed(queue[..k], succeeds), Sent(queue[..k], succeeds), queue[..k])
  {
    hide SharedOut;
    if k == 0 {
      ShareNone<Item>();
    } else {
      KeptOrSent(queue, succeeds, k - 1);
      OneMoreCall(queue, succeeds, k);
      hide Failed, Sent;
      var was, item := queue[..k - 1], queue[k - 1];
      assert queue[..k] == was + [item];
      ShareOneMore(Failed(was, succeeds), Sent(was, succeeds), was, item);
    }
  }

  /** A replay splits the queue: each item is kept or sent, and none is both. */
  lemma ReplaySplits(queue: seq<Item>, succeeds: nat -> bool)
    ensures multiset(Failed(queue, succeeds)) + multiset(Sent(queue, succeeds)) == multiset(queue)
  {
    KeptOrSent(queue, succeeds, |queue|);
    assert queue[..|queue|] == queue;
  }

  lemma OneMoreCall(queue: seq<Item>, succeeds: nat -> bool, k: nat)
    requires 0 < k <= |queue|
    ensures var was, item := queue[..k - 1], queue[k - 1];
      && (succeeds(k - 1) ==>
        && Failed(queue[..k], succeeds) == Failed(was, succeeds)
        && Sent(queue[..k], succeeds) == Sent(was, succeeds) + [item])
      && (!succeeds(k - 1) ==>
        && Failed(queue[..k], succeeds) == Failed(was, succeeds) + [item]
        && Sent(queue[..k], succeeds) == Sent(was, succeeds))
  {
    assert queue[..k][..k - 1] == queue[..k - 1];
  }

  // ------------------------------------------------------- interleaved replays

  /** A replay between its calls: what it read at its start, how many calls are answered, and what failed so far. */
  datatype Replay = Replay(snapshot: seq<Item>, pos: nat, remaining: seq<Item>)

  /** `accepted` and `sent` record history: every item ever put in the queue, and every item sent successfully. */
  datatype State = State(queue: seq<Item>, replays: map<nat, Replay>, accepted: set<Item>, sent: set<Item>)

  /** A replay ends by its finish, or is abandoned when its page closes. */
  datatype Action =
    | Enqueue(item: Item)
    | Start(id: nat)
    | CallOk(id: nat)
    | CallFails(id: nat)
    | Finish(id: nat)
    | Abandon(id: nat)

  ghost predicate Init(s: State) {
    && DistinctKeys(s.queue) && s.replays == map[] && s.sent == {}
    && s.accepted == set item <- s.queue
  }

  ghost predicate Enabled(s: State, a: Action) {
    match a
    case Enqueue(_) => true
    case Start(id) => id !in s.replays && s.queue != []
    case CallOk(id) => id in s.replays && s.replays[id].pos < |s.replays[id].snapshot|
    case CallFails(id) => id in s.replays && s.replays[id].pos < |s.replays[id].snapshot|
    case Finish(id) => id in s.replays && s.replays[id].pos == |s.replays[id].snapshot|
    case Abandon(id) => id in s.replays
  }

  ghost function Step(s: State, a: Action): State
    requires Enabled(s, a)
  {
    match a
    case Enqueue(item) =>
      if HasKey(s.queue, item.idempotencyKey) then s
      else s.(queue := Enqueued(s.queue, item), accepted := s.accepted + {item})
    case Start(id) =>
      s.(replays := s.replays[id := Replay(s.queue, 0, [])])
    case CallOk(id) =>
      var r := s.replays[id];
      s.(replays := s.replays[id := r.(pos := r.pos + 1)], sent := s.sent + {r.snapshot[r.pos]})
    case CallFails(id) =>
      var r := s.replays[id];
      s.(replays := s.replays[id := r.(pos := r.pos + 1, remaining := r.remaining + [r.snapshot[r.pos]])])
    case Finish(id) =>
      s.(queue := s.replays[id].remaining, replays := s.replays - {id})
    case Abandon(id) =>
      s.(replays := s.replays - {id})
  }

  ghost predicate IsStep(s: State, a: Action, t: State) {
    Enabled(s, a) && t == Step(s, a)
  }

  ghost predicate IsRun(states: seq<State>, actions: seq<Action>) {
    && |states| == |actions| + 1 && Init(states[0])
    && forall i :: 0 <= i < |actions| ==> IsStep(states[i], actions[i], states[i + 1])
  }

  ghost predicate ReplayOk(s: State, r: Replay) {
    && r.pos <= |r.snapshot|
    && DistinctKeys(r.remaining + r.snapshot[r.pos..])
    && (forall item <- r.remaining :: item in r.snapshot)
    && (forall item <- r.snapshot :: item in s.accepted)
    && (forall item <- r.snapshot[..r.pos] :: item in r.remaining || item in s.sent)
  }

  ghost predicate Inv(s: State) {
    && DistinctKeys(s.queue)
    && (forall item <- s.queue :: item in s.accepted)
    && (forall id <- s.replays :: ReplayOk(s, s.replays[id]))
  }

  lemma ReplayGoesOn(s: State, r: Replay, ok: bool)
    requires ReplayOk(s, r) && r.pos < |r.snapshot|
    ensures var item := r.snapshot[r.pos];
      ReplayOk(if ok then s.(sent := s.sent + {item}) else s,
               if ok then r.(pos := r.pos + 1) else r.(pos := r.pos + 1, remaining := r.remaining + [item]))
  {
    var item := r.snapshot[r.pos];
    var before := r.remaining + r.snapshot[r.pos..];
    assert r.snapshot[..r.pos + 1] == r.snapshot[..r.pos] + [item];
    if ok {
      var after := r.remaining + r.snapshot[r.pos + 1..];
      assert forall i :: 0 <= i < |after| ==> after[i] == before[if i < |r.remaining| then i else i + 1];
    } else {
      assert r.remaining + [item] + r.snapshot[r.pos + 1..] == before;
    }
  }

  lemma StepKeepsInv(s: State, a: Action)
    requires Inv(s) && Enabled(s, a)
    ensures Inv(Step(s, a))
  {
    var t := Step(s, a);
    match a
    case Enqueue(item) =>
      forall id <- t.replays
        ensures ReplayOk(t, t.replays[id])
      {
        assert ReplayOk(s, s.replays[id]);
      }
    case Start(id) =>
      assert [] + s.queue[0..] == s.queue;
    case CallOk(id) =>
      CallKeepsInv(s, id, true);
    case CallFails(id) =>
      CallKeepsInv(s, id, false);
    case Finish(id) =>
      var r := s.replays[id];
      assert ReplayOk(s, r);
      assert r.remaining + r.snapshot[r.pos..] == r.remaining;
      forall other <- t.replays
        ensures ReplayOk(t, t.replays[other])
      {
        assert ReplayOk(s, s.replays[other]);
      }
    case Abandon(id) =>
      forall other <- t.replays
        ensures ReplayOk(t, t.replays[other])
      {
        assert ReplayOk(s, s.replays[other]);
      }
  }

  lemma CallKeepsInv(s: State, id: nat, ok: bool)
    requires Inv(s) && Enabled(s, CallOk(id))
    ensures Inv(Step(s, if ok then CallOk(id) else CallFails(id)))
  {
    var t := Step(s, if ok then CallOk(id) else CallFails(id));
    assert ReplayOk(s, s.replays[id]);
    ReplayGoesOn(s, s.replays[id], ok);
    forall other <- t.replays
      ensures ReplayOk(t, t.replays[other])
    {
      hide DistinctKeys;
      assert other != id ==> ReplayOk(s, s.replays[other]);
    }
  }

  /**
   * Under every interleaving of enqueues and overlapping replays: keys stay distinct, and nothing is queued that never
   * was.
   */
  lemma {:induction false} QueueSafety(states: seq<State>, actions: seq<Action>, i: nat)
    requires IsRun(states, actions) && i < |states|
    ensures Inv(states[i])
  {
    if i > 0 {
      QueueSafety(states, actions, i - 1);
      assert IsStep(states[i - 1], actions[i - 1], states[i - 1 + 1]);
      StepKeepsInv(states[i - 1], actions[i - 1]);
    }
  }

  // ------------------------------------------------ the machine runs the method

  /** Replay id started and its first k calls answered, with nothing in between. */
  ghost function AfterCalls(s: State, id: nat, succeeds: nat -> bool, k: nat): (t: State)
    requires Enabled(s, Start(id)) && k <= |s.queue|
    ensures id in t.replays && t.replays[id].pos == k && t.replays[id].snapshot == s.queue
  {
    if k == 0 then Step(s, Start(id))
    else Step(AfterCalls(s, id, succeeds, k - 1), if succeeds(k - 1) then CallOk(id) else CallFails(id))
  }

  ghost predicate SoFar(s: State, t: State, id: nat, succeeds: nat -> bool, k: nat)
    requires k <= |s.queue|
  {
    && t.queue == s.queue && t.accepted == s.accepted
    && t.replays == s.replays[id := Replay(s.queue, k, Failed(s.queue[..k], succeeds))]
    && t.sent == s.sent + set item <- Sent(s.queue[..k], succeeds)
  }

  lemma ItemsOneMore(items: seq<Item>, item: Item)
    ensures (set x <- items + [item]) == (set x <- items) + {item}
  {
  }

  lemma NextCallOk(s: State, t: State, id: nat, succeeds: nat -> bool, k: nat)
    requires k < |s.queue| && SoFar(s, t, id, succeeds, k) && succeeds(k)
    ensures SoFar(s, Step(t, CallOk(id)), id, succeeds, k + 1)
  {
    OneMoreCall(s.queue, succeeds, k + 1);
    hide Failed, Sent, HasKey, Enqueued;
    var sent, item := Sent(s.queue[..k], succeeds), s.queue[k];
    ItemsOneMore(sent, item);
    var before := set x <- sent;
    assert s.sent + before + {item} == s.sent + (before + {item});
  }

  lemma NextCallFails(s: State, t: State, id: nat, succeeds: nat -> bool, k: nat)
    requires k < |s.queue| && SoFar(s, t, id, succeeds, k) && !succeeds(k)
    ensures SoFar(s, Step(t, CallFails(id)), id, succeeds, k + 1)
  {
    OneMoreCall(s.queue, succeeds, k + 1);
    hide Failed, Sent, HasKey, Enqueued;
  }

  lemma NextCall(s: State, t: State, id: nat, succeeds: nat -> bool, k: nat)
    requires k < |s.queue| && SoFar(s, t, id, succeeds, k)
    ensures SoFar(s, Step(t, if succeeds(k) then CallOk(id) else CallFails(id)), id, succeeds, k + 1)
  {
    if succeeds(k) {
      NextCallOk(s, t, id, succeeds, k);
    } else {
      NextCallFails(s, t, id, succeeds, k);
    }
    hide SoFar, Step;
  }

  lemma FirstCall(s: State, id: nat, succeeds: nat -> bool)
    requires Enabled(s, Start(id))
    ensures SoFar(s, Step(s, Start(id)), id, succeeds, 0)
  {
    assert s.queue[..0] == [];
  }

  lemma {:induction false} CallsSoFar(s: State, id: nat, succeeds: nat -> bool, k: nat)
    requires Enabled(s, Start(id)) && k <= |s.queue|
    ensures SoFar(s, AfterCalls(s, id, succeeds, k), id, succeeds, k)
  {
    hide SoFar, Step;
    if k == 0 {
      FirstCall(s, id, succeeds);
    } else {
      CallsSoFar(s, id, succeeds, k - 1);
      NextCall(s, AfterCalls(s, id, succeeds, k - 1), id, succeeds, k - 1);
    }
  }

  /** A replay that nothing interrupts ends, in the interleaved machine too, as the method says. */
  lemma UninterruptedReplay(s: State, id: nat, succeeds: nat -> bool)
    requires Enabled(s, Start(id))
    ensures var t := Step(AfterCalls(s, id, succeeds, |s.queue|), Finish(id));
      && t.queue == Failed(s.queue, succeeds)
      && t.sent == s.sent + (set item <- Sent(s.queue, succeeds))
      && t.replays == s.replays && t.accepted == s.accepted
  {
    CallsSoFar(s, id, succeeds, |s.queue|);
    assert s.queue[..|s.queue|] == s.queue;
    hide Failed, Sent, AfterCalls;
  }
}
