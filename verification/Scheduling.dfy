/** The deterministic slot scheduler: demands in order, each into the first slot with enough hours left. */
module Scheduling {
  import opened Options
  import opened DemandOrder

  datatype Slot = Slot(slotId: string, startsAt: string, availableHours: real)
  datatype Assignment = Assignment(slotId: string, workOrderId: string, operationId: string, assignedHours: real)

  /** Hours left per slot id. Slots that share an id share an entry. */
  type Remaining = map<string, real>

  /** Later slots overwrite the entry of earlier ones with the same id. */
  function Capacity(slots: seq<Slot>): (m: Remaining)
    ensures forall slot <- slots :: slot.slotId in m
  {
    if slots == [] then map[]
    else Capacity(slots[..|slots| - 1])[slots[|slots| - 1].slotId := slots[|slots| - 1].availableHours]
  }

  ghost predicate Covers(remaining: Remaining, slots: seq<Slot>) {
    forall slot <- slots :: slot.slotId in remaining
  }

  /** The first slot, from index k on, with at least the given hours left. */
  function FirstFit(slots: seq<Slot>, remaining: Remaining, hours: real, k: nat): (fit: Option<nat>)
    requires Covers(remaining, slots) && k <= |slots|
    ensures fit.Some? ==> k <= fit.value < |slots|
    decreases |slots| - k
  {
    if k == |slots| then None
    else if remaining[slots[k].slotId] < hours then FirstFit(slots, remaining, hours, k + 1)
    else Some(k)
  }

  /** The hours left after the first n demands. */
  function After(slots: seq<Slot>, ordered: seq<Demand>, n: nat): (remaining: Remaining)
    requires n <= |ordered|
    ensures Covers(remaining, slots)
  {
    if n == 0 then Capacity(slots)
    else
      var before := After(slots, ordered, n - 1);
      match FirstFit(slots, before, ordered[n - 1].estimatedHours, 0)
      case None => before
      case Some(k) =>
        var id := slots[k].slotId;
        before[id := before[id] - ordered[n - 1].estimatedHours]
  }

  /** Where demand n goes: the index of its slot. */
  function Placement(slots: seq<Slot>, ordered: seq<Demand>, n: nat): (fit: Option<nat>)
    requires n < |ordered|
    ensures fit.Some? ==> fit.value < |slots|
  {
    FirstFit(slots, After(slots, ordered, n), ordered[n].estimatedHours, 0)
  }

  function Placed(slot: Slot, d: Demand): Assignment {
    Assignment(slot.slotId, d.workOrderId, d.operationId, d.estimatedHours)
  }

  function Assignments(slots: seq<Slot>, ordered: seq<Demand>, n: nat): seq<Assignment>
    requires n <= |ordered|
  {
    if n == 0 then []
    else
      Assignments(slots, ordered, n - 1) +
      match Placement(slots, ordered, n - 1)
      case None => []
      case Some(k) => [Placed(slots[k], ordered[n - 1])]
  }

  function Unassigned(slots: seq<Slot>, ordered: seq<Demand>, n: nat): seq<Demand>
    requires n <= |ordered|
  {
    if n == 0 then []
    else
      Unassigned(slots, ordered, n - 1) +
      if Placement(slots, ordered, n - 1).None? then [ordered[n - 1]] else []
  }

  lemma {:induction false} FirstFitMeans(slots: seq<Slot>, remaining: Remaining, hours: real, k: nat)
    requires Covers(remaining, slots) && k <= |slots|
    ensures var fit := FirstFit(slots, remaining, hours, k);
      && (fit.Some? ==> remaining[slots[fit.value].slotId] >= hours)
      && forall j :: k <= j < (if fit.Some? then fit.value else |slots|) ==> remaining[slots[j].slotId] < hours
    decreases |slots| - k
  {
    if k < |slots| && remaining[slots[k].slotId] < hours {
      FirstFitMeans(slots, remaining, hours, k + 1);
    }
  }

  /** The turn of demand n, once its slot is known. */
  lemma Turn(slots: seq<Slot>, ordered: seq<Demand>, n: nat, fit: Option<nat>)
    requires n < |ordered| && fit == Placement(slots, ordered, n)
    ensures fit.None? ==>
      && After(slots, ordered, n + 1) == After(slots, ordered, n)
      && Assignments(slots, ordered, n + 1) == Assignments(slots, ordered, n)
      && Unassigned(slots, ordered, n + 1) == Unassigned(slots, ordered, n) + [ordered[n]]
    ensures fit.Some? ==>
      var slot, before := slots[fit.value], After(slots, ordered, n);
      && After(slots, ordered, n + 1) == before[slot.slotId := before[slot.slotId] - ordered[n].estimatedHours]
      && Assignments(slots, ordered, n + 1) == Assignments(slots, ordered, n) + [Placed(slot, ordered[n])]
      && Unassigned(slots, ordered, n + 1) == Unassigned(slots, ordered, n)
  {
    hide FirstFit, Capacity;
  }

  lemma PlacementIsFirstFit(slots: seq<Slot>, ordered: seq<Demand>, n: nat)
    requires n < |ordered|
    ensures Placement(slots, ordered, n)
         == FirstFit(slots, After(slots, ordered, n), ordered[n].estimatedHours, 0)
    ensures forall slot <- slots :: slot.slotId in After(slots, ordered, n)
  {
  }

  lemma StartOfRun(slots: seq<Slot>, ordered: seq<Demand>)
    ensures After(slots, ordered, 0) == Capacity(slots)
    ensures Assignments(slots, ordered, 0) == [] && Unassigned(slots, ordered, 0) == []
  {
  }

  method ComputeDeterministicSchedule(collation: Collation, demands: seq<Demand>, slots: seq<Slot>)
    returns (assignments: seq<Assignment>, unassigned: seq<Demand>)
    ensures var ordered := SortDemands(collation, demands);
      && assignments == Assignments(slots, ordered, |ordered|)
      && unassigned == Unassigned(slots, ordered, |ordered|)
  {
    hide SortDemands, After, Assignments, Unassigned, Placement, Covers;
    var orderedDemands := SortDemands(collation, demands);
    var slotRemaining: Remaining := map[];
    for i := 0 to |slots|
      invariant slotRemaining == Capacity(slots[..i])
    {
      slotRemaining := slotRemaining[slots[i].slotId := slots[i].availableHours];
      assert slots[..i + 1][..i] == slots[..i];
    }
    assert slots[..|slots|] == slots;
    assignments, unassigned := [], [];
    StartOfRun(slots, orderedDemands);
    for n := 0 to |orderedDemands|
      invariant slotRemaining == After(slots, orderedDemands, n)
      invariant assignments == Assignments(slots, orderedDemands, n)
      invariant unassigned == Unassigned(slots, orderedDemands, n)
    {
      var demand, isAssigned := orderedDemands[n], false;
      ghost var fit := Placement(slots, orderedDemands, n);
      PlacementIsFirstFit(slots, orderedDemands, n);
      var j := 0;
      while j < |slots|
        invariant 0 <= j <= |slots| && !isAssigned
        invariant FirstFit(slots, slotRemaining, demand.estimatedHours, j) == fit
      {
        var slot := slots[j];
        var remaining := if slot.slotId in slotRemaining then slotRemaining[slot.slotId] else 0.0;
        if remaining < demand.estimatedHours {
          j := j + 1;
          continue;
        }
        slotRemaining := slotRemaining[slot.slotId := remaining - demand.estimatedHours];
        assignments := assignments + [Placed(slot, demand)];
        isAssigned := true;
        break;
      }
      if !isAssigned {
        unassigned := unassigned + [demand];
      }
      Turn(slots, orderedDemands, n, fit);
    }
  }
}
