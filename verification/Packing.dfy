/** What first fit guarantees about a whole schedule. */
module Packing {
  import opened Options
  import opened Lists
  import opened DemandOrder
  import opened Scheduling

  ghost predicate NonNegative(ordered: seq<Demand>) {
    forall d <- ordered :: d.estimatedHours >= 0.0
  }

  ghost function Final(slots: seq<Slot>, ordered: seq<Demand>): Remaining {
    After(slots, ordered, |ordered|)
  }

  // -------------------------------------------------- every demand is placed or left over

  /** The demands that got a slot, in the order of the assignments. */
  ghost function Served(slots: seq<Slot>, ordered: seq<Demand>, n: nat): seq<Demand>
    requires n <= |ordered|
  {
    if n == 0 then []
    else Served(slots, ordered, n - 1) + if Placement(slots, ordered, n - 1).Some? then [ordered[n - 1]] else []
  }

  lemma ServedTurn(slots: seq<Slot>, ordered: seq<Demand>, n: nat)
    requires n < |ordered|
    ensures Served(slots, ordered, n + 1)
         == Served(slots, ordered, n) + if Placement(slots, ordered, n).Some? then [ordered[n]] else []
  {
    hide After, Placement;
  }

  lemma ServedStart(slots: seq<Slot>, ordered: seq<Demand>)
    ensures Served(slots, ordered, 0) == []
  {
  }

  /** Assignments and leftovers share out the demands: none is lost or doubled. */
  lemma {:induction false} ScheduleIsPartition(slots: seq<Slot>, ordered: seq<Demand>, n: nat)
    requires n <= |ordered|
    ensures multiset(Served(slots, ordered, n)) + multiset(Unassigned(slots, ordered, n)) == multiset(ordered[..n])
  {
    hide *;
    ServedStart(slots, ordered);
    StartOfRun(slots, ordered);
    if n > 0 {
      ServedTurn(slots, ordered, n - 1);
      PlacementInRange(slots, ordered, n - 1);
      Turn(slots, ordered, n - 1, Placement(slots, ordered, n - 1));
      ScheduleIsPartition(slots, ordered, n - 1);
      var x := ordered[n - 1];
      assert ordered[..n] == ordered[..n - 1] + [x];
      ShareOneMore(Served(slots, ordered, n - 1), Unassigned(slots, ordered, n - 1), ordered[..n - 1], x);
      assert Served(slots, ordered, n - 1) + [] == Served(slots, ordered, n - 1);
    }
  }

  ghost predicate IsFor(slots: seq<Slot>, a: Assignment, d: Demand) {
    && (exists slot <- slots :: a.slotId == slot.slotId)
    && a.workOrderId == d.workOrderId && a.operationId == d.operationId && a.assignedHours == d.estimatedHours
  }

  lemma PlacedIsFor(slots: seq<Slot>, k: nat, d: Demand)
    requires k < |slots|
    ensures IsFor(slots, Placed(slots[k], d), d)
  {
    assert slots[k] in slots;
  }

  /** Each assignment is for the demand served in the same place, unaltered, in one of the slots. */
  lemma {:induction false} AssignmentsServe(slots: seq<Slot>, ordered: seq<Demand>, n: nat)
    requires n <= |ordered|
    ensures |Assignments(slots, ordered, n)| == |Served(slots, ordered, n)|
    ensures forall k :: 0 <= k < |Served(slots, ordered, n)| ==>
      IsFor(slots, Assignments(slots, ordered, n)[k], Served(slots, ordered, n)[k])
  {
    hide *;
    ServedStart(slots, ordered);
    StartOfRun(slots, ordered);
    if n > 0 {
      var fit, d := Placement(slots, ordered, n - 1), ordered[n - 1];
      ServedTurn(slots, ordered, n - 1);
      PlacementInRange(slots, ordered, n - 1);
      Turn(slots, ordered, n - 1, fit);
      AssignmentsServe(slots, ordered, n - 1);
      if fit.Some? {
        PlacedIsFor(slots, fit.value, d);
      }
    }
  }

  // --------------------------------------------------------- hours left only fall

  lemma {:induction false} RemainingFalls(slots: seq<Slot>, ordered: seq<Demand>, m: nat, n: nat, slot: Slot)
    requires m <= n <= |ordered| && slot in slots && NonNegative(ordered)
    ensures After(slots, ordered, n)[slot.slotId] <= After(slots, ordered, m)[slot.slotId]
    decreases n
  {
    hide After, Placement;
    if m < n {
      RemainingFalls(slots, ordered, m, n - 1, slot);
      assert ordered[n - 1] in ordered;
      PlacementInRange(slots, ordered, n - 1);
      Turn(slots, ordered, n - 1, Placement(slots, ordered, n - 1));
    }
  }

  /** The moment of choice: what did not fit before slot k, and that slot k did. */
  lemma Choice(slots: seq<Slot>, ordered: seq<Demand>, n: nat)
    requires n < |ordered|
    ensures var fit, left := Placement(slots, ordered, n), After(slots, ordered, n);
      && (fit.Some? ==> left[slots[fit.value].slotId] >= ordered[n].estimatedHours)
      && forall j :: 0 <= j < (if fit.Some? then fit.value else |slots|) ==>
        left[slots[j].slotId] < ordered[n].estimatedHours
  {
    FirstFitMeans(slots, After(slots, ordered, n), ordered[n].estimatedHours, 0);
  }

  /** Every slot before the chosen one, and every slot for a demand left over, ends with too few hours for it. */
  lemma PassedOverForGood(slots: seq<Slot>, ordered: seq<Demand>, n: nat, j: nat)
    requires n < |ordered| && NonNegative(ordered)
    requires j < match Placement(slots, ordered, n) case Some(k) => k case None => |slots|
    ensures Final(slots, ordered)[slots[j].slotId] < ordered[n].estimatedHours
  {
    hide Placement;
    Choice(slots, ordered, n);
    RemainingFalls(slots, ordered, n, |ordered|, slots[j]);
  }

  /** Maximality: no demand left over would still fit anywhere at the end. */
  lemma Maximality(slots: seq<Slot>, ordered: seq<Demand>, d: Demand)
    requires NonNegative(ordered) && d in Unassigned(slots, ordered, |ordered|)
    ensures forall slot <- slots :: Final(slots, ordered)[slot.slotId] < d.estimatedHours
  {
    var n := LeftOverIndex(slots, ordered, |ordered|, d);
    forall slot <- slots
      ensures Final(slots, ordered)[slot.slotId] < d.estimatedHours
    {
      var j :| 0 <= j < |slots| && slots[j] == slot;
      PassedOverForGood(slots, ordered, n, j);
    }
  }

  lemma {:induction false} LeftOverIndex(slots: seq<Slot>, ordered: seq<Demand>, n: nat, d: Demand) returns (k: nat)
    requires n <= |ordered| && d in Unassigned(slots, ordered, n)
    ensures k < n && ordered[k] == d && Placement(slots, ordered, k).None?
  {
    if Placement(slots, ordered, n - 1).None? && ordered[n - 1] == d {
      k := n - 1;
    } else {
      k := LeftOverIndex(slots, ordered, n - 1, d);
    }
  }

  /** No inversion: a demand served after one that was left over needs strictly fewer hours. */
  lemma NoInversion(slots: seq<Slot>, ordered: seq<Demand>, n: nat, m: nat)
    requires n < m < |ordered| && NonNegative(ordered)
    requires Placement(slots, ordered, n).None? && Placement(slots, ordered, m).Some?
    ensures ordered[m].estimatedHours < ordered[n].estimatedHours
  {
    hide Placement;
    Choice(slots, ordered, n);
    Choice(slots, ordered, m);
    var k := Placement(slots, ordered, m).value;
    PlacementInRange(slots, ordered, m);
    RemainingFalls(slots, ordered, n, m, slots[k]);
  }

  lemma PlacementInRange(slots: seq<Slot>, ordered: seq<Demand>, m: nat)
    requires m < |ordered|
    ensures var fit := Placement(slots, ordered, m); fit.Some? ==> fit.value < |slots|
  {
  }

  // ------------------------------------------- which hours maximality and no inversion need

  ghost predicate HoursFrom(demands: seq<Demand>, hours: iset<real>) {
    forall d <- demands :: d.estimatedHours in hours
  }

  ghost predicate IsMaximal(slots: seq<Slot>, ordered: seq<Demand>) {
    forall d <- Unassigned(slots, ordered, |ordered|), slot <- slots ::
      Final(slots, ordered)[slot.slotId] < d.estimatedHours
  }

  ghost predicate HasNoInversion(slots: seq<Slot>, ordered: seq<Demand>) {
    forall n, m | 0 <= n < m < |ordered| ::
      Placement(slots, ordered, n).None? && Placement(slots, ordered, m).Some?
      ==> ordered[m].estimatedHours < ordered[n].estimatedHours
  }

  /** No negative hours have others above them: none is negative, or all are the same. */
  ghost predicate NoneBelowAnother(hours: iset<real>) {
    forall x, y | x in hours && y in hours :: y < 0.0 ==> x <= y
  }

  /** The schedule of any demands with such hours, in the order the sort serves them. */
  ghost predicate AlwaysMaximal(c: Collation, hours: iset<real>) {
    forall demands, slots | HoursFrom(demands, hours) :: IsMaximal(slots, SortDemands(c, demands))
  }

  ghost predicate NeverInverted(c: Collation, hours: iset<real>) {
    forall demands, slots | HoursFrom(demands, hours) :: HasNoInversion(slots, SortDemands(c, demands))
  }

  /** Among demands of equal hours, nothing is placed after one was left over. */
  lemma {:induction false} NoneFitsAgain(slots: seq<Slot>, ordered: seq<Demand>, m: nat, n: nat)
    requires m < n <= |ordered| && Placement(slots, ordered, m).None?
    requires forall i | 0 <= i < |ordered| :: ordered[i].estimatedHours == ordered[m].estimatedHours
    ensures After(slots, ordered, n) == After(slots, ordered, m)
    ensures n < |ordered| ==> Placement(slots, ordered, n).None?
    decreases n
  {
    hide After, Placement, FirstFit;
    if m < n - 1 {
      NoneFitsAgain(slots, ordered, m, n - 1);
    }
    Turn(slots, ordered, n - 1, None);
    PlacementIsFirstFit(slots, ordered, m);
    if n < |ordered| {
      PlacementIsFirstFit(slots, ordered, n);
    }
  }

  lemma EqualHoursKeep(slots: seq<Slot>, ordered: seq<Demand>, hours: real)
    requires forall i | 0 <= i < |ordered| :: ordered[i].estimatedHours == hours
    ensures IsMaximal(slots, ordered) && HasNoInversion(slots, ordered)
  {
    hide After, Placement, Unassigned;
    forall d <- Unassigned(slots, ordered, |ordered|), slot <- slots
      ensures Final(slots, ordered)[slot.slotId] < d.estimatedHours
    {
      var n := LeftOverIndex(slots, ordered, |ordered|, d);
      Choice(slots, ordered, n);
      NoneFitsAgain(slots, ordered, n, |ordered|);
      var j :| 0 <= j < |slots| && slots[j] == slot;
    }
    forall n, m | 0 <= n < m < |ordered| && Placement(slots, ordered, n).None?
      ensures Placement(slots, ordered, m).None?
    {
      NoneFitsAgain(slots, ordered, n, m);
    }
  }

  lemma NonNegativeHoursKeep(slots: seq<Slot>, ordered: seq<Demand>)
    requires NonNegative(ordered)
    ensures IsMaximal(slots, ordered) && HasNoInversion(slots, ordered)
  {
    hide After, Placement, Unassigned, NonNegative;
    forall d <- Unassigned(slots, ordered, |ordered|)
      ensures forall slot <- slots :: Final(slots, ordered)[slot.slotId] < d.estimatedHours
    {
      Maximality(slots, ordered, d);
    }
    forall n, m | 0 <= n < m < |ordered| && Placement(slots, ordered, n).None? && Placement(slots, ordered, m).Some?
      ensures ordered[m].estimatedHours < ordered[n].estimatedHours
    {
      NoInversion(slots, ordered, n, m);
    }
  }

  lemma SortedHours(c: Collation, demands: seq<Demand>, hours: iset<real>)
    requires HoursFrom(demands, hours)
    ensures HoursFrom(SortDemands(c, demands), hours)
  {
    hide SortDemands, Compare, Sorted, Ties;
    SortIsStableSort(c, demands);
    var ordered := SortDemands(c, demands);
    StableSortPermutes(c, demands, ordered);
    forall d <- ordered
      ensures d in demands
    {
      assert d in multiset(ordered);
      assert d in multiset(demands);
    }
  }

  lemma SuchHoursKeep(c: Collation, demands: seq<Demand>, slots: seq<Slot>, hours: iset<real>)
    requires NoneBelowAnother(hours) && HoursFrom(demands, hours)
    ensures var ordered := SortDemands(c, demands); IsMaximal(slots, ordered) && HasNoInversion(slots, ordered)
  {
    SortedHours(c, demands, hours);
    var ordered := SortDemands(c, demands);
    hide SortDemands, IsMaximal, HasNoInversion;
    if NonNegative(ordered) {
      NonNegativeHoursKeep(slots, ordered);
    } else {
      var y :| y in ordered && y.estimatedHours < 0.0;
      forall i | 0 <= i < |ordered|
        ensures ordered[i].estimatedHours == y.estimatedHours
      {
        assert ordered[i] in ordered;
      }
      EqualHoursKeep(slots, ordered, y.estimatedHours);
    }
  }

  /**
   * Negative hours y with hours x above them: some slot is too small for x, yet takes y, and so has room for x again.
   * The first x stays unassigned although it would fit, and the second is served after it.
   */
  lemma NegativeHoursReopenASlot(c: Collation, x: real, y: real) returns (demands: seq<Demand>, slots: seq<Slot>)
    requires y < x && y < 0.0
    ensures |demands| == 3 && HoursFrom(demands, iset{x, y}) && HoursFrom(demands[..2], iset{x, y})
    ensures !IsMaximal(slots, SortDemands(c, demands[..2])) && !HasNoInversion(slots, SortDemands(c, demands))
  {
    var first, minus := Demand("a", "", x, 2.0, None), Demand("b", "", y, 1.0, None);
    var second := Demand("c", "", x, 0.0, None);
    var slot := Slot("bay", "", if 0.0 < x then x + y else y);
    demands, slots := [first, minus, second], [slot];
    assert demands[..2] == [first, minus];
    InOrderAlready(c, first, minus, second);
    hide SortDemands;
    OneSlot(slot, [first, minus]);
    OneSlot(slot, demands);
  }

  lemma InOrderAlready(c: Collation, x: Demand, y: Demand, z: Demand)
    requires x.priority > y.priority > z.priority
    ensures SortDemands(c, [x, y]) == [x, y] && SortDemands(c, [x, y, z]) == [x, y, z]
  {
    CompareMeans(c, x, y);
    CompareMeans(c, y, z);
    hide Compare;
    assert [x, y, z][1..] == [y, z] && [y, z][1..] == [z] && [z][1..] == [] && [x, y][1..] == [y] && [y][1..] == [];
    assert SortDemands(c, []) == [];
    assert SortDemands(c, [z]) == [z] && SortDemands(c, [y]) == [y];
    assert SortDemands(c, [y, z]) == [y, z];
  }

  /** What one slot does with hours x too many for it, then y, then x again. */
  lemma OneSlot(slot: Slot, ordered: seq<Demand>)
    requires 2 <= |ordered| <= 3
    requires var a, x, y := slot.availableHours, ordered[0].estimatedHours, ordered[1].estimatedHours;
      a < x && y <= a && x <= a - y && (|ordered| == 3 ==> ordered[2].estimatedHours == x)
    ensures |ordered| == 2 ==> !IsMaximal([slot], ordered)
    ensures |ordered| == 3 ==> !HasNoInversion([slot], ordered)
  {
    var slots := [slot];
    assert Capacity(slots) == map[slot.slotId := slot.availableHours] by {
      assert slots[..0] == [];
    }
    StartOfRun(slots, ordered);
    PlacementIsFirstFit(slots, ordered, 0);
    Turn(slots, ordered, 0, None);
    PlacementIsFirstFit(slots, ordered, 1);
    Turn(slots, ordered, 1, Some(0));
    hide After, Unassigned, Placement;
    assert Unassigned(slots, ordered, 2) == [ordered[0]];
    assert ordered[0] in Unassigned(slots, ordered, 2) && slot in slots;
    if |ordered| == 3 {
      PlacementIsFirstFit(slots, ordered, 2);
    }
  }

  /**
   * Maximality, and likewise no inversion, holds for all slots and all demands with hours from a set exactly when no
   * negative hours in the set have others above them.
   */
  lemma MaximalityIff(c: Collation, hours: iset<real>)
    ensures AlwaysMaximal(c, hours) <==> NoneBelowAnother(hours)
    ensures NeverInverted(c, hours) <==> NoneBelowAnother(hours)
  {
    hide IsMaximal, HasNoInversion, SortDemands;
    if NoneBelowAnother(hours) {
      forall demands, slots | HoursFrom(demands, hours)
        ensures var s := SortDemands(c, demands); IsMaximal(slots, s) && HasNoInversion(slots, s)
      {
        SuchHoursKeep(c, demands, slots, hours);
      }
    } else {
      var x, y :| x in hours && y in hours && y < 0.0 && y < x;
      var demands, slots := NegativeHoursReopenASlot(c, x, y);
      assert HoursFrom(demands, hours) && HoursFrom(demands[..2], hours);
    }
  }

  // ---------------------------------------------------------------- conservation

  function HoursIn(assignments: seq<Assignment>, id: string): real {
    if assignments == [] then 0.0
    else
      var last := assignments[|assignments| - 1];
      HoursIn(assignments[..|assignments| - 1], id) + if last.slotId == id then last.assignedHours else 0.0
  }

  function TotalHours(assignments: seq<Assignment>): real {
    if assignments == [] then 0.0
    else TotalHours(assignments[..|assignments| - 1]) + assignments[|assignments| - 1].assignedHours
  }

  lemma Last<T>(s: seq<T>, x: T)
    ensures (s + [x])[..|s + [x]| - 1] == s && (s + [x])[|s + [x]| - 1] == x
  {
  }

  /** No later slot has the id of slot k, so that its hours are the ones the scheduler reads. */
  ghost predicate IsLast(slots: seq<Slot>, k: nat) {
    k < |slots| && forall j :: k < j < |slots| ==> slots[j].slotId != slots[k].slotId
  }

  /** The last of the slots with the id of slot j has c hours. */
  ghost predicate HasHours(slots: seq<Slot>, j: nat, c: real) {
    j < |slots| && exists k: nat ::
      IsLast(slots, k) && slots[k].slotId == slots[j].slotId && slots[k].availableHours == c
  }

  lemma {:induction false} CapacityIsLast(slots: seq<Slot>, k: nat)
    requires IsLast(slots, k)
    ensures Capacity(slots)[slots[k].slotId] == slots[k].availableHours
  {
    if k < |slots| - 1 {
      CapacityIsLast(slots[..|slots| - 1], k);
    }
  }

  /** With distinct ids each slot has its own hours. */
  lemma OwnHours(slots: seq<Slot>, j: nat)
    requires j < |slots| && forall i, k :: 0 <= i < k < |slots| ==> slots[i].slotId != slots[k].slotId
    ensures IsLast(slots, j) && HasHours(slots, j, slots[j].availableHours)
  {
    assert IsLast(slots, j);
  }

  lemma HasHoursMeans(slots: seq<Slot>, j: nat, c: real)
    requires HasHours(slots, j, c)
    ensures Capacity(slots)[slots[j].slotId] == c
  {
    var k: nat :| IsLast(slots, k) && slots[k].slotId == slots[j].slotId && slots[k].availableHours == c;
    CapacityIsLast(slots, k);
  }

  lemma {:induction false} EntryConserved(slots: seq<Slot>, ordered: seq<Demand>, n: nat, slot: Slot)
    requires n <= |ordered| && slot in slots
    ensures After(slots, ordered, n)[slot.slotId] + HoursIn(Assignments(slots, ordered, n), slot.slotId)
         == Capacity(slots)[slot.slotId]
  {
    hide After, Assignments, Placement, Capacity;
    if n == 0 {
      StartOfRun(slots, ordered);
    } else {
      EntryConserved(slots, ordered, n - 1, slot);
      var fit := Placement(slots, ordered, n - 1);
      PlacementInRange(slots, ordered, n - 1);
      Turn(slots, ordered, n - 1, fit);
      if fit.Some? {
        Last(Assignments(slots, ordered, n - 1), Placed(slots[fit.value], ordered[n - 1]));
      }
    }
  }

  /** A slot's hours are shared between its assignments and what is left, at every moment. */
  lemma HoursAreConserved(slots: seq<Slot>, ordered: seq<Demand>, n: nat, k: nat)
    requires n <= |ordered| && IsLast(slots, k)
    ensures After(slots, ordered, n)[slots[k].slotId] + HoursIn(Assignments(slots, ordered, n), slots[k].slotId)
         == slots[k].availableHours
  {
    CapacityIsLast(slots, k);
    EntryConserved(slots, ordered, n, slots[k]);
  }

  /** A slot is never overbooked. */
  lemma NeverOverbooked(slots: seq<Slot>, ordered: seq<Demand>, n: nat, k: nat)
    requires n <= |ordered| && IsLast(slots, k) && slots[k].availableHours >= 0.0
    ensures HoursIn(Assignments(slots, ordered, n), slots[k].slotId) <= slots[k].availableHours
  {
    HoursAreConserved(slots, ordered, n, k);
    CapacityIsLast(slots, k);
    NeverNegative(slots, ordered, n, slots[k]);
  }

  /**
   * Demand n goes to the first slot whose hours, less those assigned before, are enough for it: slot j is enough if it
   * is chosen, and too small if it is passed over. Slot k is the one whose hours count for slot j.
   */
  lemma PlacementMeans(slots: seq<Slot>, ordered: seq<Demand>, n: nat, j: nat, k: nat)
    requires n < |ordered| && j < |slots| && IsLast(slots, k) && slots[k].slotId == slots[j].slotId
    ensures var left := slots[k].availableHours - HoursIn(Assignments(slots, ordered, n), slots[j].slotId);
      var fit := Placement(slots, ordered, n);
      && (fit == Some(j) ==> left >= ordered[n].estimatedHours)
      && (fit.None? || j < fit.value ==> left < ordered[n].estimatedHours)
  {
    Choice(slots, ordered, n);
    HoursAreConserved(slots, ordered, n, k);
  }

  /** Maximality by the slots' own hours: what no assignment has used of a slot is too little for a demand left over. */
  lemma LeftOverFitsNowhere(slots: seq<Slot>, ordered: seq<Demand>, d: Demand, k: nat)
    requires NonNegative(ordered) && d in Unassigned(slots, ordered, |ordered|) && IsLast(slots, k)
    ensures var used := Assignments(slots, ordered, |ordered|);
      slots[k].availableHours - HoursIn(used, slots[k].slotId) < d.estimatedHours
  {
    Maximality(slots, ordered, d);
    HoursAreConserved(slots, ordered, |ordered|, k);
    assert slots[k] in slots;
  }

  lemma {:induction false} NeverNegative(slots: seq<Slot>, ordered: seq<Demand>, n: nat, slot: Slot)
    requires n <= |ordered| && slot in slots && Capacity(slots)[slot.slotId] >= 0.0
    ensures After(slots, ordered, n)[slot.slotId] >= 0.0
  {
    hide After, Placement, Capacity;
    if n == 0 {
      StartOfRun(slots, ordered);
    } else {
      NeverNegative(slots, ordered, n - 1, slot);
      Choice(slots, ordered, n - 1);
      PlacementInRange(slots, ordered, n - 1);
      Turn(slots, ordered, n - 1, Placement(slots, ordered, n - 1));
    }
  }

  // -------------------------------------------------------- how full the slots get

  /** The slots at the given indices, each chosen by some demand, all of c hours. */
  ghost predicate InUse(slots: seq<Slot>, ordered: seq<Demand>, chosen: seq<nat>, c: real) {
    && (forall s, t :: 0 <= s < t < |chosen| ==> chosen[s] < chosen[t])
    && (forall t :: 0 <= t < |chosen| ==> chosen[t] < |slots| && HasHours(slots, chosen[t], c))
    && (forall k <- chosen :: exists n :: 0 <= n < |ordered| && Placement(slots, ordered, n) == Some(k))
  }

  ghost function Ids(slots: seq<Slot>, chosen: seq<nat>): seq<string>
    requires forall t :: 0 <= t < |chosen| ==> chosen[t] < |slots|
  {
    seq(|chosen|, t requires 0 <= t < |chosen| => slots[chosen[t]].slotId)
  }

  /** Of two slots in use, together they hold more than the first one's hours; and they are not the same entry. */
  lemma PairMoreThanFull(slots: seq<Slot>, ordered: seq<Demand>, i: nat, j: nat, n: nat, c: real)
    requires i < j < |slots| && n < |ordered| && NonNegative(ordered) && HasHours(slots, i, c)
    requires Placement(slots, ordered, n) == Some(j)
    ensures slots[i].slotId != slots[j].slotId
    ensures var used := Assignments(slots, ordered, |ordered|);
      HoursIn(used, slots[i].slotId) + HoursIn(used, slots[j].slotId) > c
  {
    HasHoursMeans(slots, i, c);
    Choice(slots, ordered, n);
    PassedOverForGood(slots, ordered, n, i);
    Turn(slots, ordered, n, Some(j));
    hide Placement, After, Assignments;
    RemainingFalls(slots, ordered, 0, n, slots[j]);
    RemainingFalls(slots, ordered, n + 1, |ordered|, slots[j]);
    StartOfRun(slots, ordered);
    EntryConserved(slots, ordered, |ordered|, slots[i]);
    EntryConserved(slots, ordered, |ordered|, slots[j]);
  }

  lemma ChosenPair(slots: seq<Slot>, ordered: seq<Demand>, chosen: seq<nat>, c: real, s: nat, t: nat)
    requires NonNegative(ordered) && InUse(slots, ordered, chosen, c) && s < t < |chosen|
    ensures slots[chosen[s]].slotId != slots[chosen[t]].slotId
    ensures var used := Assignments(slots, ordered, |ordered|);
      HoursIn(used, slots[chosen[s]].slotId) + HoursIn(used, slots[chosen[t]].slotId) > c
  {
    hide Assignments, Placement, HoursIn, HasHours;
    assert chosen[t] in chosen;
    var n :| 0 <= n < |ordered| && Placement(slots, ordered, n) == Some(chosen[t]);
    PairMoreThanFull(slots, ordered, chosen[s], chosen[t], n, c);
  }

  ghost function Sum(u: seq<real>): real {
    if u == [] then 0.0 else Sum(u[..|u| - 1]) + u[|u| - 1]
  }

  ghost function Times(n: nat, c: real): real {
    if n == 0 then 0.0 else Times(n - 1, c) + c
  }

  lemma {:induction false} TimesIsProduct(n: nat, c: real)
    ensures Times(n, c) == n as real * c
  {
    if n > 0 {
      TimesIsProduct(n - 1, c);
    }
  }

  lemma {:induction false} NeighbourSums(u: seq<real>, c: real)
    requires |u| >= 2
    requires forall t :: 0 < t < |u| ==> u[t - 1] + u[t] > c
    ensures 2.0 * Sum(u) - u[0] - u[|u| - 1] > Times(|u| - 1, c)
  {
    if |u| == 2 {
      assert u[..1] == [u[0]] && [u[0]][..0] == [];
      assert Sum(u[..1]) == u[0];
      assert u[1 - 1] + u[1] > c;
      assert Times(1, c) == Times(0, c) + c;
    } else {
      var v := u[..|u| - 1];
      assert v[|v| - 1] + u[|u| - 1] > c;
      NeighbourSums(v, c);
    }
  }

  ghost function HoursInAll(assignments: seq<Assignment>, ids: seq<string>): seq<real> {
    seq(|ids|, t requires 0 <= t < |ids| => HoursIn(assignments, ids[t]))
  }

  lemma {:induction false} HoursOfOne(assignments: seq<Assignment>, a: Assignment, ids: seq<string>)
    requires Distinct(ids)
    ensures Sum(HoursInAll(assignments + [a], ids))
         == Sum(HoursInAll(assignments, ids)) + if a.slotId in ids then a.assignedHours else 0.0
  {
    if ids != [] {
      var front, id := ids[..|ids| - 1], ids[|ids| - 1];
      HoursOfOne(assignments, a, front);
      Last(assignments, a);
      assert HoursInAll(assignments + [a], ids)[..|ids| - 1] == HoursInAll(assignments + [a], front);
      assert HoursInAll(assignments, ids)[..|ids| - 1] == HoursInAll(assignments, front);
      assert ids == front + [id];
    }
  }

  lemma {:induction false} SumOfZeros(ids: seq<string>)
    ensures Sum(HoursInAll([], ids)) == 0.0
  {
    if ids != [] {
      SumOfZeros(ids[..|ids| - 1]);
      assert HoursInAll([], ids)[..|ids| - 1] == HoursInAll([], ids[..|ids| - 1]);
    }
  }

  lemma {:induction false} PartOfTotal(assignments: seq<Assignment>, ids: seq<string>)
    requires Distinct(ids)
    requires forall a <- assignments :: a.assignedHours >= 0.0
    ensures Sum(HoursInAll(assignments, ids)) <= TotalHours(assignments)
  {
    if assignments == [] {
      SumOfZeros(ids);
    } else {
      var front, a := assignments[..|assignments| - 1], assignments[|assignments| - 1];
      PartOfTotal(front, ids);
      HoursOfOne(front, a, ids);
      assert assignments == front + [a];
      assert a in assignments;
    }
  }

  /** The total is the sum over any distinct ids that cover the assignments. */
  lemma {:induction false} TotalIsSum(assignments: seq<Assignment>, ids: seq<string>)
    requires Distinct(ids) && forall a <- assignments :: a.slotId in ids
    ensures TotalHours(assignments) == Sum(HoursInAll(assignments, ids))
  {
    if assignments == [] {
      SumOfZeros(ids);
    } else {
      var front, a := assignments[..|assignments| - 1], assignments[|assignments| - 1];
      TotalIsSum(front, ids);
      HoursOfOne(front, a, ids);
      assert assignments == front + [a];
    }
  }

  lemma {:induction false} AssignedHoursNonNegative(slots: seq<Slot>, ordered: seq<Demand>, n: nat)
    requires n <= |ordered| && NonNegative(ordered)
    ensures forall a <- Assignments(slots, ordered, n) :: a.assignedHours >= 0.0
  {
    if n > 0 {
      AssignedHoursNonNegative(slots, ordered, n - 1);
      assert ordered[n - 1] in ordered;
    }
  }

  /** First fit leaves at most one slot in use half empty: m slots of c hours hold more than m * c / 2 hours. */
  lemma MoreThanHalfFull(slots: seq<Slot>, ordered: seq<Demand>, chosen: seq<nat>, c: real)
    requires NonNegative(ordered) && |chosen| >= 2 && InUse(slots, ordered, chosen, c)
    ensures 2.0 * TotalHours(Assignments(slots, ordered, |ordered|)) > |chosen| as real * c
  {
    hide Assignments, Placement, HoursIn, TotalHours, HasHours, Sum;
    var used, ids := Assignments(slots, ordered, |ordered|), Ids(slots, chosen);
    var u := HoursInAll(used, ids);
    AssignedHoursNonNegative(slots, ordered, |ordered|);
    forall s, t | 0 <= s < t < |chosen|
      ensures ids[s] != ids[t] && u[s] + u[t] > c
    {
      ChosenPair(slots, ordered, chosen, c, s, t);
    }
    hide *;
    FromPairs(used, ids, u, |chosen|, c);
  }

  lemma FromPairs(used: seq<Assignment>, ids: seq<string>, u: seq<real>, m: nat, c: real)
    requires |ids| == |u| == m >= 2 && u == HoursInAll(used, ids)
    requires forall s, t :: 0 <= s < t < m ==> ids[s] != ids[t] && u[s] + u[t] > c
    requires forall a <- used :: a.assignedHours >= 0.0
    ensures 2.0 * TotalHours(used) > m as real * c
  {
    hide Sum, HoursInAll, TotalHours;
    PartOfTotal(used, ids);
    assert u[0] + u[m - 1] > c;
    NeighbourSums(u, c);
    TimesIsProduct(m, c);
  }

  // --------------------------------------------- order independence and insertion

  lemma {:induction false} SamePrefix(slots: seq<Slot>, a: seq<Demand>, b: seq<Demand>, n: nat)
    requires n <= |a| && n <= |b| && a[..n] == b[..n]
    ensures After(slots, a, n) == After(slots, b, n)
    ensures Assignments(slots, a, n) == Assignments(slots, b, n)
    ensures Unassigned(slots, a, n) == Unassigned(slots, b, n)
  {
    hide After, Assignments, Unassigned, Placement, FirstFit;
    if n == 0 {
      StartOfRun(slots, a);
      StartOfRun(slots, b);
    } else {
      assert a[..n - 1] == a[..n][..n - 1] == b[..n - 1];
      assert a[n - 1] == a[..n][n - 1] == b[n - 1];
      SamePrefix(slots, a, b, n - 1);
      PlacementIsFirstFit(slots, a, n - 1);
      PlacementIsFirstFit(slots, b, n - 1);
      PlacementInRange(slots, a, n - 1);
      Turn(slots, a, n - 1, Placement(slots, a, n - 1));
      Turn(slots, b, n - 1, Placement(slots, b, n - 1));
    }
  }

  /** With pairwise distinct keys, the schedule does not depend on the order the demands came in. */
  lemma ScheduleOfPermutation(c: Collation, a: seq<Demand>, b: seq<Demand>, slots: seq<Slot>)
    requires multiset(a) == multiset(b) && DistinctKeys(c, a) && DistinctKeys(c, b)
    ensures var s, t := SortDemands(c, a), SortDemands(c, b);
      && Assignments(slots, s, |s|) == Assignments(slots, t, |t|)
      && Unassigned(slots, s, |s|) == Unassigned(slots, t, |t|)
  {
    SortOfPermutation(c, a, b);
  }

  /** One more demand x, wherever it stands in the input, changes no placement of a demand sorted before it. */
  lemma OneMoreDemand(c: Collation, demands: seq<Demand>, p: nat, x: Demand, slots: seq<Slot>) returns (k: nat)
    requires p <= |demands|
    ensures var s, t := SortDemands(c, demands), SortDemands(c, demands[..p] + [x] + demands[p..]);
      && k <= |s| && t == s[..k] + [x] + s[k..]
      && Assignments(slots, t, k) == Assignments(slots, s, k)
      && Unassigned(slots, t, k) == Unassigned(slots, s, k)
      && forall n :: 0 <= n < k ==> Placement(slots, t, n) == Placement(slots, s, n)
  {
    k := SortWithOneMore(c, demands, p, x);
    var s, t := SortDemands(c, demands), SortDemands(c, demands[..p] + [x] + demands[p..]);
    assert t[..k] == s[..k];
    hide SortDemands;
    SamePrefix(slots, s, t, k);
    forall n | 0 <= n < k
      ensures Placement(slots, t, n) == Placement(slots, s, n)
    {
      assert t[..n] == t[..k][..n] == s[..n];
      assert t[n] == s[..k][n] == s[n];
      SamePrefix(slots, s, t, n);
    }
  }
}
