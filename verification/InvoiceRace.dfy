/** Several invoice handlers at once: what the invariant needs when their database calls interleave. */
module InvoiceRace {
  import opened Options
  import opened InvoiceQueue

  /** Where a handler stands between its calls: its lookup found nothing, or its work order was found too. */
  datatype Stage = LookedUp(workOrderId: string) | Confirmed(workOrderId: string) | Ended

  datatype State = State(db: Db, handlers: map<nat, Stage>)

  /** The three database calls. A handler that throws takes no further step. */
  datatype Action =
    | Look(h: nat, workOrderId: string)
    | Confirm(h: nat)
    | Create(h: nat, uuid: string, correlationId: string)

  ghost predicate Init(s: State) {
    AtMostOne(s.db) && s.handlers == map[]
  }

  ghost predicate Enabled(s: State, a: Action) {
    match a
    case Look(h, workOrderId) => h !in s.handlers && workOrderId != ""
    case Confirm(h) => h in s.handlers && s.handlers[h].LookedUp?
    case Create(h, _, _) =>
      h in s.handlers && s.handlers[h].Confirmed? && s.handlers[h].workOrderId in s.db.workOrders
  }

  ghost function Step(s: State, a: Action): State
    requires Enabled(s, a)
  {
    match a
    case Look(h, workOrderId) =>
      var found := FindActive(s.db.invoices, workOrderId).Some?;
      s.(handlers := s.handlers[h := if found then Ended else LookedUp(workOrderId)])
    case Confirm(h) =>
      var workOrderId := s.handlers[h].workOrderId;
      s.(handlers := s.handlers[h := if workOrderId in s.db.workOrders then Confirmed(workOrderId) else Ended])
    case Create(h, uuid, correlationId) =>
      var record := NewRecord(s.db, s.handlers[h].workOrderId, uuid, correlationId);
      State(s.db.(invoices := s.db.invoices + [record]), s.handlers[h := Ended])
  }

  ghost predicate IsStep(s: State, a: Action, t: State) {
    Enabled(s, a) && t == Step(s, a)
  }

  ghost predicate IsRun(states: seq<State>, actions: seq<Action>) {
    && |states| == |actions| + 1 && Init(states[0])
    && forall i :: 0 <= i < |actions| ==> IsStep(states[i], actions[i], states[i + 1])
  }

  // ---------------------------------------------------------------------- one step

  /** A handler alone: the first n of its three steps, or fewer if it ends before. */
  ghost function Alone(s: State, h: nat, workOrderId: string, uuid: string, correlationId: string, n: nat): (t: State)
    requires h !in s.handlers && workOrderId != ""
  {
    if n == 0 then s
    else
      var looked := Step(s, Look(h, workOrderId));
      if n == 1 || looked.handlers[h].Ended? then looked
      else
        var confirmed := Step(looked, Confirm(h));
        if n == 2 || confirmed.handlers[h].Ended? then confirmed
        else Step(confirmed, Create(h, uuid, correlationId))
  }

  /** How many of the calls take effect before a handler meets the fault. */
  function StepsBefore(fault: Fault): nat {
    match fault
    case LookupFails => 0
    case WorkOrderLookupFails => 1
    case CreateFails => 2
    case AfterCreateFails => 3
    case NoFault => 3
  }

  /** A handler that nothing comes between, and that stops where it throws, is one attempt of the sequential handler. */
  lemma AloneIsQueueInvoice(s: State, h: nat, workOrderId: string, uuid: string, correlationId: string, fault: Fault)
    requires h !in s.handlers && workOrderId != ""
    ensures var (after, result) := QueueInvoice(s.db, Some(workOrderId), correlationId, uuid, fault);
      var t := Alone(s, h, workOrderId, uuid, correlationId, StepsBefore(fault));
      && t.db == after
      && (result.Skipped? <==>
        StepsBefore(fault) > 0 && Step(s, Look(h, workOrderId)).handlers[h].Ended?)
      && (result.Queued? ==> h in t.handlers && t.handlers[h].Ended? && t.db != s.db)
  {
  }

  /** A create keeps the invariant exactly when its work order still has no active record. */
  lemma CreateKeepsIff(s: State, h: nat, uuid: string, correlationId: string)
    requires AtMostOne(s.db) && Enabled(s, Create(h, uuid, correlationId))
    ensures var w, after := s.handlers[h].workOrderId, Step(s, Create(h, uuid, correlationId));
      && CountActive(after.db.invoices, w) == CountActive(s.db.invoices, w) + 1
      && (AtMostOne(after.db) <==> FindActive(s.db.invoices, w).None?)
  {
    var w := s.handlers[h].workOrderId;
    var record := NewRecord(s.db, w, uuid, correlationId);
    CountZero(s.db.invoices, w);
    forall x
      ensures CountActive(s.db.invoices + [record], x) == CountActive(s.db.invoices, x) + if x == w then 1 else 0
    {
      CountSnoc(s.db.invoices, record, x);
    }
  }

  lemma OtherStepsKeep(s: State, a: Action)
    requires Enabled(s, a) && !a.Create?
    ensures Step(s, a).db == s.db
  {
  }

  /** A step adds one active record of w if it is a create for w, and none otherwise. */
  lemma StepCounts(s: State, a: Action, w: string)
    requires Enabled(s, a)
    ensures CountActive(Step(s, a).db.invoices, w)
         == CountActive(s.db.invoices, w) + if IsCreateFor(s, a, w) then 1 else 0
  {
    if a.Create? {
      CountSnoc(s.db.invoices, NewRecord(s.db, s.handlers[a.h].workOrderId, a.uuid, a.correlationId), w);
    }
  }

  ghost predicate IsCreateFor(s: State, a: Action, w: string) {
    a.Create? && a.h in s.handlers && s.handlers[a.h].Confirmed? && s.handlers[a.h].workOrderId == w
  }

  // -------------------------------------------------------------------- whole runs

  /**
   * Step i is the lookup of the handler that creates in step j, and step m in between is a create for its work order.
   */
  ghost predicate Overtaken(states: seq<State>, actions: seq<Action>, i: int, m: int, j: int)
    requires |states| == |actions| + 1
  {
    && 0 <= i < m < j < |actions|
    && actions[i].Look? && actions[j].Create? && actions[i].h == actions[j].h
    && IsCreateFor(states[m], actions[m], actions[i].workOrderId)
  }

  ghost predicate NoneOvertaken(states: seq<State>, actions: seq<Action>)
    requires |states| == |actions| + 1
  {
    forall i, m, j :: !Overtaken(states, actions, i, m, j)
  }

  /** A handler that may still create has a lookup in the past that found nothing. */
  ghost predicate HasLooked(states: seq<State>, actions: seq<Action>, i: nat, j: nat, h: nat)
    requires |states| == |actions| + 1
  {
    && i < j < |states| && h in states[j].handlers && !states[j].handlers[h].Ended?
    && actions[i] == Look(h, states[j].handlers[h].workOrderId)
    && CountActive(states[i].db.invoices, states[j].handlers[h].workOrderId) == 0
  }

  lemma RunAt(states: seq<State>, actions: seq<Action>, i: nat)
    requires IsRun(states, actions)
    ensures |states| == |actions| + 1 && Init(states[0])
    ensures i < |actions| ==> Enabled(states[i], actions[i]) && states[i + 1] == Step(states[i], actions[i])
  {
    hide Enabled, Step;
    assert i < |actions| ==> IsStep(states[i], actions[i], states[i + 1]);
  }

  lemma {:induction false} LookupOf(states: seq<State>, actions: seq<Action>, j: nat, h: nat) returns (i: nat)
    requires IsRun(states, actions) && j < |states| && h in states[j].handlers && !states[j].handlers[h].Ended?
    ensures HasLooked(states, actions, i, j, h)
  {
    RunAt(states, actions, if j > 0 then j - 1 else 0);
    hide IsRun, CountActive;
    var s, a := states[j - 1], actions[j - 1];
    if a.Look? && a.h == h {
      i := j - 1;
      CountZero(s.db.invoices, a.workOrderId);
    } else {
      i := LookupOf(states, actions, j - 1, h);
    }
  }

  /** A handler looks once. */
  lemma {:induction false} LooksOnce(states: seq<State>, actions: seq<Action>, i: nat, j: nat)
    requires IsRun(states, actions) && i < j < |states| && actions[i].Look?
    ensures actions[i].h in states[j].handlers
    decreases j
  {
    RunAt(states, actions, i);
    RunAt(states, actions, j - 1);
    hide IsRun, FindActive, NewRecord;
    if i < j - 1 {
      LooksOnce(states, actions, i, j - 1);
    }
  }

  ghost predicate NoCreateIn(states: seq<State>, actions: seq<Action>, i: int, j: int, w: string)
    requires 0 <= i <= j <= |actions| && |states| == |actions| + 1
  {
    forall m :: i <= m < j ==> !IsCreateFor(states[m], actions[m], w)
  }

  lemma NoCreateOneMore(states: seq<State>, actions: seq<Action>, i: nat, j: nat, w: string)
    requires i < j <= |actions| && |states| == |actions| + 1
    ensures NoCreateIn(states, actions, i, j, w)
       <==> NoCreateIn(states, actions, i, j - 1, w) && !IsCreateFor(states[j - 1], actions[j - 1], w)
  {
    hide IsCreateFor;
  }

  lemma NoSteps(states: seq<State>, actions: seq<Action>, i: nat, w: string)
    requires i <= |actions| && |states| == |actions| + 1
    ensures NoCreateIn(states, actions, i, i, w)
  {
  }

  /**
   * Active records of w from state i to state j: they never get fewer, and stay as many only without a create for w.
   */
  lemma {:induction false} CountOverRun(states: seq<State>, actions: seq<Action>, i: nat, j: nat, w: string)
    requires IsRun(states, actions) && i <= j < |states|
    ensures |states| == |actions| + 1
    ensures CountActive(states[i].db.invoices, w) <= CountActive(states[j].db.invoices, w)
    ensures CountActive(states[i].db.invoices, w) == CountActive(states[j].db.invoices, w)
       <==> NoCreateIn(states, actions, i, j, w)
    decreases j
  {
    hide *;
    RunAt(states, actions, 0);
    if i < j {
      CountOverRun(states, actions, i, j - 1, w);
      RunAt(states, actions, j - 1);
      StepCounts(states[j - 1], actions[j - 1], w);
      NoCreateOneMore(states, actions, i, j, w);
    } else {
      NoSteps(states, actions, i, w);
    }
  }

  /** A create in step j finds its work order without an active record exactly when no other create overtook it. */
  lemma CreateFindsNoneIff(states: seq<State>, actions: seq<Action>, j: nat)
    requires IsRun(states, actions) && j < |actions| && actions[j].Create?
    ensures j < |states| && actions[j].h in states[j].handlers && !states[j].handlers[actions[j].h].Ended?
    ensures FindActive(states[j].db.invoices, states[j].handlers[actions[j].h].workOrderId).None?
       <==> forall i, m :: !Overtaken(states, actions, i, m, j)
  {
    RunAt(states, actions, j);
    var h := actions[j].h;
    var w := states[j].handlers[h].workOrderId;
    var i := LookupOf(states, actions, j, h);
    RunAt(states, actions, i);
    CountOverRun(states, actions, i, j, w);
    CountZero(states[j].db.invoices, w);
    forall l: nat | l < j && actions[l].Look? && actions[l].h == h
      ensures l == i
    {
      RunAt(states, actions, l);
      if l < i {
        LooksOnce(states, actions, l, i);
      } else if i < l {
        LooksOnce(states, actions, i, l);
      }
    }
    hide IsRun, FindActive, CountActive;
    assert !IsCreateFor(states[i], actions[i], w);
    if m :| i <= m < j && IsCreateFor(states[m], actions[m], w) {
      assert Overtaken(states, actions, i, m, j);
    }
  }

  /**
   * Under any interleaving no work order ever has two active records, exactly when no create for a work order falls
   * between another handler's lookup for it and that handler's own create.
   */
  lemma SafeIff(states: seq<State>, actions: seq<Action>)
    requires IsRun(states, actions)
    ensures |states| == |actions| + 1
    ensures (forall s <- states :: AtMostOne(s.db)) <==> NoneOvertaken(states, actions)
  {
    RunAt(states, actions, 0);
    hide IsRun, AtMostOne, Overtaken;
    if forall s <- states :: AtMostOne(s.db) {
      forall i, m, j
        ensures !Overtaken(states, actions, i, m, j)
      {
        if Overtaken(states, actions, i, m, j) {
          OvertakenBreaks(states, actions, i, m, j);
        }
      }
    }
    if NoneOvertaken(states, actions) {
      forall s <- states
        ensures AtMostOne(s.db)
      {
        var j :| 0 <= j < |states| && states[j] == s;
        SafeUpTo(states, actions, j);
      }
    }
  }

  lemma OvertakenBreaks(states: seq<State>, actions: seq<Action>, i: int, m: int, j: int)
    requires IsRun(states, actions) && Overtaken(states, actions, i, m, j) && AtMostOne(states[j].db)
    ensures !AtMostOne(states[j + 1].db)
  {
    RunAt(states, actions, j);
    CreateFindsNoneIff(states, actions, j);
    CreateKeepsIff(states[j], actions[j].h, actions[j].uuid, actions[j].correlationId);
  }

  lemma {:induction false} SafeUpTo(states: seq<State>, actions: seq<Action>, j: nat)
    requires IsRun(states, actions) && j < |states| && NoneOvertaken(states, actions)
    ensures AtMostOne(states[j].db)
  {
    RunAt(states, actions, if j > 0 then j - 1 else 0);
    if j > 0 {
      SafeUpTo(states, actions, j - 1);
      hide IsRun, Overtaken, AtMostOne;
      var s, a := states[j - 1], actions[j - 1];
      if a.Create? {
        CreateFindsNoneIff(states, actions, j - 1);
        CreateKeepsIff(s, a.h, a.uuid, a.correlationId);
      } else {
        OtherStepsKeep(s, a);
      }
    }
  }

  /** Two handlers for one work order that both look before either creates queue it twice. */
  lemma InterleavedLookupsQueueTwice(db: Db, workOrderId: string, first: string, second: string)
    returns (states: seq<State>, actions: seq<Action>)
    requires AtMostOne(db) && workOrderId != "" && workOrderId in db.workOrders
    requires FindActive(db.invoices, workOrderId).None?
    ensures IsRun(states, actions) && states[0].db == db
    ensures actions == [
      Look(0, workOrderId), Look(1, workOrderId), Confirm(0), Confirm(1), Create(0, first, ""), Create(1, second, "")]
    ensures Overtaken(states, actions, 1, 4, 5)
    ensures CountActive(states[|states| - 1].db.invoices, workOrderId) == 2
  {
    var w := workOrderId;
    actions := [Look(0, w), Look(1, w), Confirm(0), Confirm(1), Create(0, first, ""), Create(1, second, "")];
    var one := db.(invoices := db.invoices + [NewRecord(db, w, first, "")]);
    var two := one.(invoices := one.invoices + [NewRecord(one, w, second, "")]);
    var s0, s1 := State(db, map[]), State(db, map[][0 := LookedUp(w)]);
    var s2 := State(db, s1.handlers[1 := LookedUp(w)]);
    var s3 := State(db, s2.handlers[0 := Confirmed(w)]);
    var s4 := State(db, s3.handlers[1 := Confirmed(w)]);
    var s5 := State(one, s4.handlers[0 := Ended]);
    var s6 := State(two, s5.handlers[1 := Ended]);
    states := [s0, s1, s2, s3, s4, s5, s6];
    hide IsStep, Step, Enabled, FindActive, CountActive, NewRecord, AtMostOne;
    LookFindsNone(s0, 0, w);
    LookFindsNone(s1, 1, w);
    ConfirmFinds(s2, 0, w);
    ConfirmFinds(s3, 1, w);
    CreateAdds(s4, 0, w, first);
    CreateAdds(s5, 1, w, second);
    CountZero(db.invoices, w);
  }

  lemma LookFindsNone(s: State, h: nat, w: string)
    requires h !in s.handlers && w != "" && FindActive(s.db.invoices, w).None?
    ensures IsStep(s, Look(h, w), s.(handlers := s.handlers[h := LookedUp(w)]))
  {
  }

  lemma ConfirmFinds(s: State, h: nat, w: string)
    requires h in s.handlers && s.handlers[h] == LookedUp(w) && w in s.db.workOrders
    ensures IsStep(s, Confirm(h), s.(handlers := s.handlers[h := Confirmed(w)]))
  {
  }

  lemma CreateAdds(s: State, h: nat, w: string, uuid: string)
    requires h in s.handlers && s.handlers[h] == Confirmed(w) && w in s.db.workOrders
    ensures var after := s.db.(invoices := s.db.invoices + [NewRecord(s.db, w, uuid, "")]);
      && IsStep(s, Create(h, uuid, ""), State(after, s.handlers[h := Ended]))
      && CountActive(after.invoices, w) == CountActive(s.db.invoices, w) + 1
  {
    CountSnoc(s.db.invoices, NewRecord(s.db, w, uuid, ""), w);
  }
}
