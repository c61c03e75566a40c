/** Any number of drain runs in a row over a table nothing is appended to, some of them cut short by a crash. */
module DrainRuns {
  import opened Lists
  import opened OutboxDrain

  ghost predicate IsHistory(tables: seq<Table>, runs: seq<Run>, batchSize: nat) {
    && |tables| == |runs| + 1 && DistinctIds(tables[0])
    && forall r :: 0 <= r < |runs| ==> IsRun(tables[r], tables[r + 1], batchSize, runs[r])
  }

  /** How many records of its order a run has settled: a crash leaves the last attempted one as it was. */
  ghost function Settled(run: Run): nat {
    if run.finished || run.attempted == 0 then run.attempted else run.attempted - 1
  }

  ghost predicate IsPending(rows: Table, x: OutboxRow) {
    x in rows && x.state.Pending?
  }

  /** A row stays as it is, or goes from PENDING to PUBLISHED or FAILED with one more attempt. */
  ghost predicate RowMoves(x: OutboxRow, y: OutboxRow) {
    y == x || (x.state.Pending? && exists o: Outcome :: !o.Crashes? && y == Marked(x, o))
  }

  // ---------------------------------------------------------------------- one run

  lemma RunFacts(before: Table, after: Table, batchSize: nat, run: Run)
    requires IsRun(before, after, batchSize, run)
    ensures Settled(run) <= run.attempted <= |run.order| && run.attempted <= |run.outcomes|
    ensures IsPendingOrder(before, run.order) && |after| == |before|
    ensures AllMarked(before, after, run.order[..run.attempted], run.outcomes)
    ensures forall k :: 0 <= k < run.attempted ==> (run.outcomes[k].Crashes? <==> k >= Settled(run))
    ensures run.attempted <= Settled(run) + 1 && (Settled(run) < run.attempted ==> !run.finished)
  {
    hide IsPendingOrder, Marked;
  }

  /** A row among the settled records is no longer PENDING; any other row is as it was. */
  lemma RowInRun(before: Table, after: Table, batchSize: nat, run: Run, i: nat)
    requires IsRun(before, after, batchSize, run) && i < |before|
    ensures Settled(run) <= |run.order| && |after| == |before|
    ensures after[i].id == before[i].id && RowMoves(before[i], after[i])
    ensures before[i] in run.order[..Settled(run)] ==> !after[i].state.Pending?
    ensures before[i] !in run.order[..Settled(run)] ==> after[i] == before[i]
  {
    RunFacts(before, after, batchSize, run);
    hide IsRun, Settled;
    var attempted, settled := run.order[..run.attempted], run.order[..Settled(run)];
    assert forall k :: 0 <= k < |settled| ==> settled[k] == attempted[k];
    if before[i] in attempted {
      var k :| 0 <= k < |attempted| && attempted[k] == before[i];
      assert run.order[k] == before[i];
      assert before[i] in run.order;
      assert after[i] == Marked(before[i], run.outcomes[k]);
      hide AllMarked;
      if k < Settled(run) {
        assert settled[k] == before[i];
      }
    }
  }

  lemma RunKeepsIds(before: Table, after: Table, batchSize: nat, run: Run)
    requires IsRun(before, after, batchSize, run) && DistinctIds(before)
    ensures DistinctIds(after) && |after| == |before|
  {
    hide IsRun;
    RunFacts(before, after, batchSize, run);
    hide IsPendingOrder, AllMarked;
    forall i | 0 <= i < |before|
      ensures after[i].id == before[i].id
    {
      RowInRun(before, after, batchSize, run, i);
    }
  }

  /** What is still PENDING after a run is exactly the unsettled rest of its order. */
  lemma PendingAfterRun(before: Table, after: Table, batchSize: nat, run: Run, x: OutboxRow)
    requires IsRun(before, after, batchSize, run)
    ensures Settled(run) <= |run.order|
    ensures IsPending(after, x) <==> x in run.order[Settled(run)..]
    ensures IsPending(after, x) ==> IsPending(before, x)
  {
    hide IsRun, Settled, RowMoves;
    RunFacts(before, after, batchSize, run);
    hide AllMarked;
    var m := Settled(run);
    var first, rest := run.order[..m], run.order[m..];
    assert run.order == first + rest;
    if IsPending(after, x) {
      var i :| 0 <= i < |after| && after[i] == x;
      RowInRun(before, after, batchSize, run, i);
      assert before[i] == x && x in before;
      assert x in run.order;
    }
    if x in rest {
      assert x in run.order;
      Apart(run.order, m, x);
      var i :| 0 <= i < |before| && before[i] == x;
      RowInRun(before, after, batchSize, run, i);
      assert after[i] in after;
    }
  }

  lemma Apart(order: Table, m: nat, x: OutboxRow)
    requires m <= |order| && NoRepeats(order) && x in order[m..]
    ensures x !in order[..m]
  {
    var k :| 0 <= k < |order[m..]| && order[m..][k] == x;
    assert order[m + k] == x;
  }

  // ------------------------------------------------------------------- whole runs

  lemma RunAt(tables: seq<Table>, runs: seq<Run>, batchSize: nat, r: nat)
    requires IsHistory(tables, runs, batchSize)
    ensures |tables| == |runs| + 1 && DistinctIds(tables[0])
    ensures r < |runs| ==> IsRun(tables[r], tables[r + 1], batchSize, runs[r])
  {
    hide IsRun;
  }

  lemma {:induction false} HistoryKeepsIds(tables: seq<Table>, runs: seq<Run>, batchSize: nat, r: nat)
    requires IsHistory(tables, runs, batchSize) && r < |tables|
    ensures DistinctIds(tables[r]) && |tables[r]| == |tables[0]|
  {
    hide *;
    RunAt(tables, runs, batchSize, 0);
    if r > 0 {
      HistoryKeepsIds(tables, runs, batchSize, r - 1);
      RunAt(tables, runs, batchSize, r - 1);
      RunKeepsIds(tables[r - 1], tables[r], batchSize, runs[r - 1]);
    }
  }

  lemma {:induction false} PendingShrinks(
    tables: seq<Table>, runs: seq<Run>, batchSize: nat, q: nat, r: nat, x: OutboxRow)
    requires IsHistory(tables, runs, batchSize) && q <= r < |tables| && IsPending(tables[r], x)
    ensures IsPending(tables[q], x)
    decreases r
  {
    hide *;
    if q < r {
      RunAt(tables, runs, batchSize, r - 1);
      PendingAfterRun(tables[r - 1], tables[r], batchSize, runs[r - 1], x);
      PendingShrinks(tables, runs, batchSize, q, r - 1, x);
    }
  }

  lemma MoveAgain(x: OutboxRow, y: OutboxRow, z: OutboxRow)
    requires RowMoves(x, y) && RowMoves(y, z)
    ensures RowMoves(x, z)
  {
  }

  /** Over any number of runs a row moves at most once, from PENDING to a final state with one more attempt. */
  lemma {:induction false} RowMovesOnce(tables: seq<Table>, runs: seq<Run>, batchSize: nat, r: nat, i: nat)
    requires IsHistory(tables, runs, batchSize) && r < |tables| && i < |tables[0]|
    ensures |tables[r]| == |tables[0]| && RowMoves(tables[0][i], tables[r][i])
  {
    hide *;
    HistoryKeepsIds(tables, runs, batchSize, r);
    if r == 0 {
      NoMove(tables[0][i]);
    } else {
      RowMovesOnce(tables, runs, batchSize, r - 1, i);
      RunAt(tables, runs, batchSize, r - 1);
      RowInRun(tables[r - 1], tables[r], batchSize, runs[r - 1], i);
      MoveAgain(tables[0][i], tables[r - 1][i], tables[r][i]);
    }
  }

  lemma NoMove(x: OutboxRow)
    ensures RowMoves(x, x)
  {
  }

  /** What a move does to a row. */
  lemma MoveMeans(x: OutboxRow, y: OutboxRow)
    requires RowMoves(x, y) && x != y
    ensures x.state.Pending? && !y.state.Pending? && y.attemptCount == x.attemptCount + 1
    ensures y.id == x.id && y.createdAt == x.createdAt && y.payload == x.payload
    ensures y.eventName == x.eventName && y.correlationId == x.correlationId
    ensures y.state.Published? ==> y.publishedAt.Some? && y.lastError == x.lastError
    ensures y.state.Failed? ==> y.lastError.Some? && y.publishedAt == x.publishedAt
  {
  }

  /** A record of a run is PENDING before it; one that is PENDING after it stands in the unsettled rest of its order. */
  lemma LaterPending(tables: seq<Table>, runs: seq<Run>, batchSize: nat, q: nat, r: nat, k: nat) returns (l: nat)
    requires IsHistory(tables, runs, batchSize) && q < r < |runs| && k < runs[r].attempted
    ensures k < |runs[r].order|
    ensures Settled(runs[q]) <= l < |runs[q].order| && runs[q].order[l] == runs[r].order[k]
  {
    hide *;
    RunAt(tables, runs, batchSize, q);
    RunAt(tables, runs, batchSize, r);
    RunFacts(tables[r], tables[r + 1], batchSize, runs[r]);
    var x, m := runs[r].order[k], Settled(runs[q]);
    FromOrder(tables[r], runs[r].order, k);
    PendingShrinks(tables, runs, batchSize, q + 1, r, x);
    PendingAfterRun(tables[q], tables[q + 1], batchSize, runs[q], x);
    var i :| 0 <= i < |runs[q].order[m..]| && runs[q].order[m..][i] == x;
    l := m + i;
  }

  lemma FromOrder(rows: Table, order: Table, k: nat)
    requires IsPendingOrder(rows, order) && k < |order|
    ensures IsPending(rows, order[k])
  {
    assert order[k] in order;
  }

  /** The bus sees the records in order of creation across all the runs, crashes and repeated attempts included. */
  lemma AttemptsInOrder(tables: seq<Table>, runs: seq<Run>, batchSize: nat, q: nat, r: nat, j: nat, k: nat)
    requires IsHistory(tables, runs, batchSize) && q <= r < |runs| && (q == r ==> j <= k)
    requires j < runs[q].attempted && k < runs[r].attempted
    ensures j < |runs[q].order| && k < |runs[r].order| && runs[q].order[j].createdAt <= runs[r].order[k].createdAt
  {
    RunAt(tables, runs, batchSize, q);
    RunFacts(tables[q], tables[q + 1], batchSize, runs[q]);
    hide IsHistory, IsRun, Settled, AllMarked, NoRepeats;
    if q < r {
      var l := LaterPending(tables, runs, batchSize, q, r, k);
      assert j <= l;
    }
  }

  /** A record is attempted again only if the run that attempted it crashed on it. */
  lemma AttemptedAgainOnlyAfterCrash(tables: seq<Table>, runs: seq<Run>, batchSize: nat, q: nat, r: nat, j: nat, k: nat)
    requires IsHistory(tables, runs, batchSize) && q < r < |runs|
    requires j < runs[q].attempted && k < runs[r].attempted
    requires j < |runs[q].order| && k < |runs[r].order| && runs[q].order[j] == runs[r].order[k]
    ensures j < |runs[q].outcomes| && runs[q].outcomes[j].Crashes?
    ensures !runs[q].finished && j == runs[q].attempted - 1
  {
    RunAt(tables, runs, batchSize, q);
    RunFacts(tables[q], tables[q + 1], batchSize, runs[q]);
    hide IsHistory, IsRun, Settled, AllMarked, SortedByCreation;
    var l := LaterPending(tables, runs, batchSize, q, r, k);
    assert l == j;
  }

  /** Every row that ends PUBLISHED was attempted in some run, and the bus took it. */
  lemma {:induction false} PublishedWasTaken(tables: seq<Table>, runs: seq<Run>, batchSize: nat, r: nat, i: nat)
    returns (q: nat, k: nat)
    requires IsHistory(tables, runs, batchSize) && r < |tables| && i < |tables[0]| == |tables[r]|
    requires tables[0][i].state.Pending? && tables[r][i].state.Published?
    ensures q < r && k < runs[q].attempted && k < |runs[q].order| && k < |runs[q].outcomes|
    ensures runs[q].order[k] == tables[0][i] && Taken(runs[q].outcomes[k])
  {
    hide *;
    assert r > 0;
    RowMovesOnce(tables, runs, batchSize, r - 1, i);
    RunAt(tables, runs, batchSize, r - 1);
    var x, before, after, run := tables[0][i], tables[r - 1], tables[r], runs[r - 1];
    if before[i].state.Published? {
      q, k := PublishedWasTaken(tables, runs, batchSize, r - 1, i);
    } else {
      NotYetPublished(before, after, batchSize, run, i, x);
      q := r - 1;
      k := PublishedInRun(before, after, batchSize, run, i);
    }
  }

  lemma NotYetPublished(before: Table, after: Table, batchSize: nat, run: Run, i: nat, x: OutboxRow)
    requires IsRun(before, after, batchSize, run) && i < |before| == |after| && RowMoves(x, before[i])
    requires !before[i].state.Published? && after[i].state.Published?
    ensures before[i] == x
  {
    RowInRun(before, after, batchSize, run, i);
    hide IsRun;
  }

  lemma PublishedInRun(before: Table, after: Table, batchSize: nat, run: Run, i: nat) returns (k: nat)
    requires IsRun(before, after, batchSize, run) && i < |before| == |after|
    requires before[i].state.Pending? && after[i].state.Published?
    ensures k < run.attempted && k < |run.order| && k < |run.outcomes|
    ensures run.order[k] == before[i] && Taken(run.outcomes[k])
  {
    RunFacts(before, after, batchSize, run);
    hide IsRun, Settled, IsPendingOrder;
    var attempted := run.order[..run.attempted];
    assert before[i] in attempted;
    k :| 0 <= k < |attempted| && attempted[k] == before[i];
    assert after[i] == Marked(before[i], run.outcomes[k]);
  }

  // ------------------------------------------------------------ at least once, or not

  /** Attempt k of run q is at x. */
  ghost predicate IsAttempt(runs: seq<Run>, q: int, k: int, x: OutboxRow) {
    && 0 <= q < |runs| && 0 <= k < runs[q].attempted && k < |runs[q].order| && k < |runs[q].outcomes|
    && runs[q].order[k] == x
  }

  /** In some attempt the bus took the event of x. */
  ghost predicate WasTaken(runs: seq<Run>, x: OutboxRow) {
    exists q, k :: IsAttempt(runs, q, k, x) && Taken(runs[q].outcomes[k])
  }

  /** The process was lost in an attempt at x of an earlier run than q, after the bus had taken the event. */
  ghost predicate LostAfterTaking(runs: seq<Run>, q: int, x: OutboxRow) {
    exists p, j :: p < q && IsAttempt(runs, p, j, x) && runs[p].outcomes[j] == Crashes(true)
  }

  predicate Refused(outcome: Outcome) {
    outcome.BusThrows? && !outcome.taken
  }

  /** In the attempt that settles x the bus throws before taking the event, and no earlier attempt got it through. */
  ghost predicate RefusedForGood(runs: seq<Run>, x: OutboxRow) {
    exists q, k ::
      IsAttempt(runs, q, k, x) && Refused(runs[q].outcomes[k]) && !LostAfterTaking(runs, q, x)
  }

  lemma RunAttempt(tables: seq<Table>, runs: seq<Run>, batchSize: nat, q: nat, k: nat, x: OutboxRow)
    requires IsHistory(tables, runs, batchSize) && IsAttempt(runs, q, k, x)
    ensures (!runs[q].outcomes[k].Crashes? <==> k < Settled(runs[q])) && NoRepeats(runs[q].order)
  {
    RunAt(tables, runs, batchSize, q);
    RunFacts(tables[q], tables[q + 1], batchSize, runs[q]);
    hide IsHistory, IsRun, Settled, AllMarked, SortedByCreation;
  }

  /** A row that is no longer PENDING has an attempt that settled it. */
  lemma {:induction false} SettlingAttempt(tables: seq<Table>, runs: seq<Run>, batchSize: nat, r: nat, i: nat)
    returns (q: nat, k: nat)
    requires IsHistory(tables, runs, batchSize) && r < |tables| && i < |tables[0]| == |tables[r]|
    requires tables[0][i].state.Pending? && !tables[r][i].state.Pending?
    ensures IsAttempt(runs, q, k, tables[0][i]) && !runs[q].outcomes[k].Crashes?
  {
    hide *;
    assert r > 0;
    RowMovesOnce(tables, runs, batchSize, r - 1, i);
    RunAt(tables, runs, batchSize, r - 1);
    var x, before, after, run := tables[0][i], tables[r - 1], tables[r], runs[r - 1];
    if !before[i].state.Pending? {
      q, k := SettlingAttempt(tables, runs, batchSize, r - 1, i);
    } else {
      StillTheSame(x, before[i]);
      q := r - 1;
      k := SettledInRun(before, after, batchSize, run, i);
      AnAttempt(runs, q, k, x);
    }
  }

  lemma AnAttempt(runs: seq<Run>, q: nat, k: nat, x: OutboxRow)
    requires q < |runs| && k < runs[q].attempted && k < |runs[q].order| && k < |runs[q].outcomes|
    requires runs[q].order[k] == x
    ensures IsAttempt(runs, q, k, x)
  {
  }

  lemma StillTheSame(x: OutboxRow, y: OutboxRow)
    requires RowMoves(x, y) && y.state.Pending?
    ensures y == x
  {
  }

  lemma SettledInRun(before: Table, after: Table, batchSize: nat, run: Run, i: nat) returns (k: nat)
    requires IsRun(before, after, batchSize, run) && i < |before| == |after|
    requires before[i].state.Pending? && !after[i].state.Pending?
    ensures k < run.attempted && k < |run.order| && k < |run.outcomes|
    ensures run.order[k] == before[i] && !run.outcomes[k].Crashes?
  {
    RunFacts(before, after, batchSize, run);
    RowInRun(before, after, batchSize, run, i);
    hide IsRun, Settled, IsPendingOrder, AllMarked;
    var settled := run.order[..Settled(run)];
    assert before[i] in settled;
    k :| 0 <= k < |settled| && settled[k] == before[i];
  }

  /** A row is settled by one attempt only: every other attempt at it comes in an earlier run, and crashes. */
  lemma SettledOnce(
    tables: seq<Table>, runs: seq<Run>, batchSize: nat, q: nat, k: nat, p: nat, j: nat, x: OutboxRow)
    requires IsHistory(tables, runs, batchSize) && IsAttempt(runs, q, k, x) && !runs[q].outcomes[k].Crashes?
    requires IsAttempt(runs, p, j, x) && (p, j) != (q, k)
    ensures p < q && runs[p].outcomes[j].Crashes?
  {
    RunAttempt(tables, runs, batchSize, q, k, x);
    hide IsHistory;
    if p < q {
      AttemptedAgainOnlyAfterCrash(tables, runs, batchSize, p, q, j, k);
    } else if p > q {
      AttemptedAgainOnlyAfterCrash(tables, runs, batchSize, q, p, k, j);
    }
  }

  /**
   * At least once, row by row: the bus took the event of a row that is settled in the end, unless in the settling
   * attempt the bus threw before taking it and no run had been lost after getting the event through.
   */
  lemma TakenIff(tables: seq<Table>, runs: seq<Run>, batchSize: nat, i: nat)
    requires IsHistory(tables, runs, batchSize) && i < |tables[0]| == |tables[|runs|]|
    requires tables[0][i].state.Pending? && !tables[|runs|][i].state.Pending?
    ensures WasTaken(runs, tables[0][i]) <==> !RefusedForGood(runs, tables[0][i])
  {
    assert |tables| == |runs| + 1;
    hide IsHistory, IsAttempt, LostAfterTaking;
    var x := tables[0][i];
    var q, k := SettlingAttempt(tables, runs, batchSize, |runs|, i);
    forall p: nat, j: nat | IsAttempt(runs, p, j, x) && (p, j) != (q, k)
      ensures p < q && runs[p].outcomes[j].Crashes?
    {
      SettledOnce(tables, runs, batchSize, q, k, p, j, x);
    }
    TakenBySettling(runs, q, k, x);
  }

  lemma TakenBySettling(runs: seq<Run>, q: nat, k: nat, x: OutboxRow)
    requires IsAttempt(runs, q, k, x) && !runs[q].outcomes[k].Crashes?
    requires forall p: nat, j: nat | IsAttempt(runs, p, j, x) && (p, j) != (q, k) ::
      p < q && runs[p].outcomes[j].Crashes?
    ensures WasTaken(runs, x) <==> !Refused(runs[q].outcomes[k]) || LostAfterTaking(runs, q, x)
    ensures WasTaken(runs, x) <==> !RefusedForGood(runs, x)
  {
    assert IsAttempt(runs, q, k, x) && (Taken(runs[q].outcomes[k]) <==> !Refused(runs[q].outcomes[k]));
  }

  /** The events that must get out once the table is drained: those of the rows PENDING at first. */
  ghost predicate AtLeastOnce(rows: Table, runs: seq<Run>) {
    forall x <- rows :: x.state.Pending? ==> WasTaken(runs, x)
  }

  /** A drained table has had every event delivered exactly when no row was refused for good. */
  lemma AtLeastOnceIff(tables: seq<Table>, runs: seq<Run>, batchSize: nat)
    requires IsHistory(tables, runs, batchSize) && forall y <- tables[|runs|] :: !y.state.Pending?
    ensures AtLeastOnce(tables[0], runs) <==> forall x <- tables[0] :: x.state.Pending? ==> !RefusedForGood(runs, x)
  {
    hide IsRun, WasTaken, RefusedForGood;
    HistoryKeepsIds(tables, runs, batchSize, |runs|);
    forall x | x in tables[0] && x.state.Pending?
      ensures WasTaken(runs, x) <==> !RefusedForGood(runs, x)
    {
      var i :| 0 <= i < |tables[0]| && tables[0][i] == x;
      TakenIff(tables, runs, batchSize, i);
    }
  }

  /**
   * Delivery that fails: one row, one run, a bus that throws. The table is drained and the row FAILED either way, and
   * the event never got out exactly if the bus threw before taking it.
   */
  lemma RefusedIsNeverSent(row: OutboxRow, reason: string, taken: bool, batchSize: nat)
    returns (tables: seq<Table>, runs: seq<Run>)
    requires row.state.Pending? && batchSize > 0
    ensures IsHistory(tables, runs, batchSize) && tables[0] == [row]
    ensures forall y <- tables[|runs|] :: y.state.Failed?
    ensures WasTaken(runs, row) <==> taken
    ensures RefusedForGood(runs, row) <==> !taken
    ensures AtLeastOnce(tables[0], runs) <==> taken
  {
    var outcome := BusThrows(reason, taken);
    var run := Run([row], [outcome], 1, true);
    var after := [Marked(row, outcome)];
    tables, runs := [[row], after], [run];
    assert IsPendingOrder([row], run.order);
    assert run.order[..run.attempted] == [row];
    assert AllMarked([row], after, [row], run.outcomes);
    assert IsRun([row], after, batchSize, run);
    assert IsAttempt(runs, 0, 0, row) && runs[0].outcomes[0] == outcome;
    assert row in tables[0];
    TakenIff(tables, runs, batchSize, 0);
  }

  // ------------------------------------------------------------------- how many runs

  ghost function PendingSet(rows: Table): set<OutboxRow> {
    set x <- rows | x.state.Pending?
  }

  lemma InPendingSet(rows: Table, x: OutboxRow)
    ensures x in PendingSet(rows) <==> IsPending(rows, x)
  {
  }

  ghost function Elements(rows: Table): set<OutboxRow> {
    set x <- rows
  }

  lemma {:induction false} SizeOfNoRepeats(rows: Table)
    requires NoRepeats(rows)
    ensures |Elements(rows)| == |rows|
  {
    if rows != [] {
      var front, last := rows[..|rows| - 1], rows[|rows| - 1];
      SizeOfNoRepeats(front);
      assert rows == front + [last];
      assert Elements(rows) == Elements(front) + {last};
    }
  }

  /** A run takes its settled records, and no others, off the number of PENDING rows. */
  lemma PendingCount(before: Table, after: Table, batchSize: nat, run: Run)
    requires IsRun(before, after, batchSize, run)
    ensures |PendingSet(before)| == |run.order|
    ensures |PendingSet(after)| == |run.order| - Settled(run) >= 0
  {
    RunFacts(before, after, batchSize, run);
    hide IsRun, AllMarked, SortedByCreation, Settled, IsPending;
    SizeOfNoRepeats(run.order);
    assert PendingSet(before) == Elements(run.order);
    var rest := run.order[Settled(run)..];
    SizeOfNoRepeats(rest);
    forall x
      ensures x in PendingSet(after) <==> x in rest
    {
      PendingAfterRun(before, after, batchSize, run, x);
      InPendingSet(after, x);
    }
    assert PendingSet(after) == Elements(rest);
  }

  ghost function Left(n: nat, r: nat, b: nat): nat {
    if n <= r * b then 0 else n - r * b
  }

  lemma LeftAfterOneMore(n: nat, r: nat, b: nat)
    requires r > 0
    ensures Left(n, r, b) == Left(n, r - 1, b) - Min(b, Left(n, r - 1, b))
  {
    assert r * b == (r - 1) * b + b;
  }

  lemma FinishedRunSettles(before: Table, after: Table, batchSize: nat, run: Run)
    requires IsRun(before, after, batchSize, run) && run.finished
    ensures Settled(run) == Min(batchSize, |run.order|)
  {
  }

  lemma {:induction false} CountAfterRuns(tables: seq<Table>, runs: seq<Run>, batchSize: nat, r: nat)
    requires IsHistory(tables, runs, batchSize) && r < |tables|
    requires forall q :: 0 <= q < |runs| ==> runs[q].finished
    ensures |PendingSet(tables[r])| == Left(|PendingSet(tables[0])|, r, batchSize)
  {
    assert Left(|PendingSet(tables[0])|, 0, batchSize) == |PendingSet(tables[0])|;
    hide *;
    if r > 0 {
      CountAfterRuns(tables, runs, batchSize, r - 1);
      RunAt(tables, runs, batchSize, r - 1);
      PendingCount(tables[r - 1], tables[r], batchSize, runs[r - 1]);
      FinishedRunSettles(tables[r - 1], tables[r], batchSize, runs[r - 1]);
      LeftAfterOneMore(|PendingSet(tables[0])|, r, batchSize);
    }
  }

  ghost function CeilDiv(n: nat, b: nat): nat
    requires b > 0
  {
    (n + b - 1) / b
  }

  lemma CeilDivMeans(n: nat, b: nat, r: nat)
    requires b > 0
    ensures r >= CeilDiv(n, b) <==> r * b >= n
  {
    var q, m := CeilDiv(n, b), (n + b - 1) % b;
    assert n + b - 1 == q * b + m;
    if r >= q {
      assert r * b >= q * b by {
        assert r * b - q * b == (r - q) * b;
      }
    } else {
      assert (r + 1) * b <= q * b by {
        assert q * b - (r + 1) * b == (q - r - 1) * b;
      }
      assert (r + 1) * b == r * b + b;
    }
  }

  /** Runs that finish drain a table of n PENDING rows when there are ceil(n / b) of them, and not sooner. */
  lemma DrainedIff(tables: seq<Table>, runs: seq<Run>, batchSize: nat)
    requires IsHistory(tables, runs, batchSize) && batchSize > 0
    requires forall q :: 0 <= q < |runs| ==> runs[q].finished
    ensures (forall x <- tables[|runs|] :: !x.state.Pending?)
       <==> |runs| >= CeilDiv(|PendingSet(tables[0])|, batchSize)
  {
    hide IsRun;
    CountAfterRuns(tables, runs, batchSize, |runs|);
    CeilDivMeans(|PendingSet(tables[0])|, batchSize, |runs|);
    var left := PendingSet(tables[|runs|]);
    if forall x <- tables[|runs|] :: !x.state.Pending? {
      assert left == {};
    }
    if left == {} {
      forall x <- tables[|runs|]
        ensures !x.state.Pending?
      {
        assert x !in left;
      }
    }
  }
}
