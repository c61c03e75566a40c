/** Webhook runs and scheduled batches in any mix do what one batch does, error text aside. */
module PaymentMixes {
  import opened Lists
  import opened PaymentSync
  import opened PaymentAgreement
  import opened PaymentBatches

  // ------------------------------------------------------------------- any mix of runs

  /** A webhook event that names its id, or a scheduled batch; a batch has one trial for each record of its size. */
  datatype Job = Webhook(trial: Trial) | Batch(trials: seq<Trial>)

  function TrialsOf(job: Job): seq<Trial> {
    match job
    case Webhook(trial) => [trial]
    case Batch(trials) => trials
  }

  function AllTrials(jobs: seq<Job>): seq<Trial> {
    if jobs == [] then [] else AllTrials(jobs[..|jobs| - 1]) + TrialsOf(jobs[|jobs| - 1])
  }

  function RunJob(records: Records, job: Job, links: Links): Records {
    match job
    case Webhook(trial) => WebhookRecords(records, trial, links)
    case Batch(trials) => BatchRecords(records, trials, links)
  }

  function RunJobs(records: Records, jobs: seq<Job>, links: Links): Records {
    if jobs == [] then records
    else RunJob(RunJobs(records, jobs[..|jobs| - 1], links), jobs[|jobs| - 1], links)
  }

  lemma OneAlike(a: Records, b: Records, trial: Trial, links: Links)
    requires Same(a, b)
    ensures Same(BatchRecords(a, [trial], links), BatchRecords(b, [trial], links))
    ensures Same(WebhookRecords(a, trial, links), BatchRecords(b, [trial], links))
  {
    SameOrder(a, b);
    BatchOfOne(a, trial, links);
    BatchOfOne(b, trial, links);
    var order := PendingOrder(a);
    hide PendingOrder, AfterBatch, AfterWebhook, BatchRecords;
    if order != [] {
      assert SameButText(a[order[0]], b[order[0]]) && SameButText(b[order[0]], a[order[0]]);
      AttemptsAlike(a[order[0]], b[order[0]], trial, links);
      AttemptsAlike(b[order[0]], a[order[0]], trial, links);
    }
  }

  lemma AbortAlike(a: Records, b: Records, trials: seq<Trial>, links: Links)
    requires Same(a, b)
    ensures NoneAborts(a, trials, links) <==> NoneAborts(b, trials, links)
  {
    SameOrder(a, b);
    var order := PendingOrder(a);
    hide PendingOrder, Aborts;
    forall j | 0 <= j < Min(|trials|, |order|)
      ensures Aborts(a[order[j]], trials[j], links) <==> Aborts(b[order[j]], trials[j], links)
    {
      assert SameButText(a[order[j]], b[order[j]]);
      AbortMeans(a[order[j]], trials[j], links);
      AbortMeans(b[order[j]], trials[j], links);
    }
  }

  lemma {:induction false} BatchAlike(a: Records, b: Records, trials: seq<Trial>, links: Links)
    requires Same(a, b)
    ensures Same(BatchRecords(a, trials, links), BatchRecords(b, trials, links))
  {
    if trials == [] {
      BatchOfNone(a, links);
      BatchOfNone(b, links);
    } else {
      hide BatchRecords, NoneAborts, Same;
      var front, last := trials[..|trials| - 1], trials[|trials| - 1];
      assert trials == front + [last];
      BatchAlike(a, b, front, links);
      AbortAlike(a, b, front, links);
      if NoneAborts(a, front, links) {
        BatchSnoc(a, front, last, links);
        BatchSnoc(b, front, last, links);
        OneAlike(BatchRecords(a, front, links), BatchRecords(b, front, links), last, links);
      } else {
        AbortStops(a, front, [last], links);
        AbortStops(b, front, [last], links);
      }
    }
  }

  /** No run but the last may meet an abort. */
  ghost predicate NoneAbortsBeforeLast(records: Records, jobs: seq<Job>, links: Links) {
    jobs != [] ==> NoneAborts(records, AllTrials(jobs[..|jobs| - 1]), links)
  }

  lemma SameAsItself(records: Records)
    ensures Same(records, records)
  {
  }

  lemma EarlierJobs(records: Records, jobs: seq<Job>, links: Links)
    requires NoneAborts(records, AllTrials(jobs), links)
    ensures NoneAbortsBeforeLast(records, jobs, links)
  {
    hide NoneAborts;
    if jobs != [] {
      var earlier, last := AllTrials(jobs[..|jobs| - 1]), TrialsOf(jobs[|jobs| - 1]);
      if !NoneAborts(records, earlier, links) {
        AbortStops(records, earlier, last, links);
      }
    }
  }

  /**
   * Any sequence of webhook runs and scheduled batches of which none but the last meets an abort leaves what one batch
   * of the same number of attempts leaves: the same states, attempt counts and times in every record, and an error
   * message in the same records.
   */
  lemma {:induction false} AnyMixIsOneBatch(records: Records, jobs: seq<Job>, links: Links)
    requires NoneAbortsBeforeLast(records, jobs, links)
    ensures Same(RunJobs(records, jobs, links), BatchRecords(records, AllTrials(jobs), links))
  {
    if jobs == [] {
      BatchOfNone(records, links);
      SameAsItself(records);
    } else {
      var front, last := jobs[..|jobs| - 1], jobs[|jobs| - 1];
      var trials, more := AllTrials(front), TrialsOf(last);
      EarlierJobs(records, front, links);
      AnyMixIsOneBatch(records, front, links);
      BatchesCompose(records, trials, more, links);
      var mixed, batch := RunJobs(records, front, links), BatchRecords(records, trials, links);
      hide BatchRecords, WebhookRecords, Same, NoneAborts;
      match last
      case Webhook(trial) => OneAlike(mixed, batch, trial, links);
      case Batch(_) => BatchAlike(mixed, batch, more, links);
    }
  }

  // ------------------------------------------------------- what any mix of runs leaves

  /** A run leaves records it does not come to as they are. */
  lemma JobLeavesRest(records: Records, job: Job, links: Links, i: nat)
    requires i < |records|
    requires var order := PendingOrder(records); NotAmong(i, order, Min(|TrialsOf(job)|, |order|))
    ensures |RunJob(records, job, links)| == |records| && RunJob(records, job, links)[i] == records[i]
  {
    var order := PendingOrder(records);
    hide PendingOrder, AfterBatch, AfterWebhook, Attempts;
    if job.Batch? {
      AttemptMeans(records, order, job.trials, links, Attempts(records, job.trials, links));
    }
  }

  lemma {:induction false} MixLeavesRest(records: Records, jobs: seq<Job>, links: Links, i: nat)
    requires NoneAborts(records, AllTrials(jobs), links) && i < |records|
    requires var order := PendingOrder(records); NotAmong(i, order, Min(|AllTrials(jobs)|, |order|))
    ensures |RunJobs(records, jobs, links)| == |records| && RunJobs(records, jobs, links)[i] == records[i]
  {
    if jobs != [] {
      var front, last := jobs[..|jobs| - 1], jobs[|jobs| - 1];
      var order, trials := PendingOrder(records), AllTrials(front);
      var mixed, n := RunJobs(records, front, links), Min(|trials|, |order|);
      EarlierJobs(records, jobs, links);
      EarlierJobs(records, front, links);
      hide PendingOrder, NoneAborts, BatchRecords, RunJob;
      MixLeavesRest(records, front, links, i);
      AnyMixIsOneBatch(records, front, links);
      FullBatch(records, trials, links);
      SameOrder(mixed, BatchRecords(records, trials, links));
      assert PendingOrder(mixed) == order[n..];
      JobLeavesRest(mixed, last, links, i);
    }
  }

  /**
   * What any mix of runs with n attempts and no abort leaves: the oldest n PENDING records are each SYNCED or FAILED,
   * as their links say, none IN_PROGRESS, and every other record is as it was.
   */
  lemma MixSettlesTheOldest(records: Records, jobs: seq<Job>, links: Links)
    requires NoneAborts(records, AllTrials(jobs), links)
    ensures var after, order, trials := RunJobs(records, jobs, links), PendingOrder(records), AllTrials(jobs);
      var n := Min(|trials|, |order|);
      && |after| == |records|
      && (forall i | 0 <= i < |records| && NotAmong(i, order, n) :: after[i] == records[i])
      && (forall j | 0 <= j < n ::
        && EndsWell(records[order[j]], after[order[j]], trials[j], links)
        && (after[order[j]].state.Synced? || after[order[j]].state.Failed?))
  {
    var order, trials := PendingOrder(records), AllTrials(jobs);
    var n := Min(|trials|, |order|);
    var after, batch := RunJobs(records, jobs, links), BatchRecords(records, trials, links);
    EarlierJobs(records, jobs, links);
    AnyMixIsOneBatch(records, jobs, links);
    FullBatch(records, trials, links);
    AttemptMeans(records, order, trials, links, n);
    hide PendingOrder, RunJobs, AllTrials, BatchRecords, AttemptFirst, AfterBatch, Aborts;
    forall i | 0 <= i < |records| && NotAmong(i, order, n)
      ensures after[i] == records[i]
    {
      MixLeavesRest(records, jobs, links, i);
    }
    forall j | 0 <= j < n
      ensures EndsWell(records[order[j]], after[order[j]], trials[j], links)
      ensures after[order[j]].state.Synced? || after[order[j]].state.Failed?
    {
      assert order[j] in order && !Aborts(records[order[j]], trials[j], links);
      AttemptEndsWell(records[order[j]], trials[j], links);
      AbortMeans(records[order[j]], trials[j], links);
      assert SameButText(after[order[j]], batch[order[j]]);
    }
  }

  // ------------------------------------------------------------ webhook runs, aborts included

  function Webhooks(trials: seq<Trial>): seq<Job> {
    seq(|trials|, k requires 0 <= k < |trials| => Webhook(trials[k]))
  }

  lemma {:induction false} TrialsOfWebhooks(trials: seq<Trial>)
    ensures AllTrials(Webhooks(trials)) == trials
  {
    if trials != [] {
      var front := trials[..|trials| - 1];
      TrialsOfWebhooks(front);
      assert Webhooks(trials)[..|trials| - 1] == Webhooks(front);
    }
  }

  lemma WebhookSnoc(records: Records, trials: seq<Trial>, trial: Trial, links: Links)
    ensures RunJobs(records, Webhooks(trials + [trial]), links)
         == WebhookRecords(RunJobs(records, Webhooks(trials), links), trial, links)
  {
    var jobs := Webhooks(trials + [trial]);
    assert jobs[..|jobs| - 1] == Webhooks(trials);
  }

  lemma {:induction false} WebhooksConcat(records: Records, first: seq<Trial>, second: seq<Trial>, links: Links)
    ensures RunJobs(records, Webhooks(first + second), links)
         == RunJobs(RunJobs(records, Webhooks(first), links), Webhooks(second), links)
  {
    if second == [] {
      assert first + second == first;
    } else {
      var front, last := second[..|second| - 1], second[|second| - 1];
      assert second == front + [last] && first + second == (first + front) + [last];
      WebhooksConcat(records, first, front, links);
      hide RunJobs;
      WebhookSnoc(records, first + front, last, links);
      WebhookSnoc(RunJobs(records, Webhooks(first), links), front, last, links);
    }
  }

  ghost predicate AllIdle(trials: seq<Trial>) {
    forall t <- trials :: Idle(t)
  }

  /**
   * A webhook run changes nothing if nothing is PENDING or its trial is idle; else it takes a record out of PENDING.
   */
  lemma WebhookMoves(records: Records, trial: Trial, links: Links)
    ensures var order, after := PendingOrder(records), WebhookRecords(records, trial, links);
      && |after| == |records|
      && (forall i | 0 <= i < |records| && !records[i].state.Pending? :: after[i] == records[i])
      && (order == [] || Idle(trial) ==> after == records)
      && (order != [] && !Idle(trial) ==> records[order[0]].state.Pending? && !after[order[0]].state.Pending?)
  {
    var order := PendingOrder(records);
    hide PendingOrder;
    if order != [] {
      assert order[0] in order;
      AttemptEndsWell(records[order[0]], trial, links);
    }
  }

  /** A record PENDING before and no longer PENDING after. */
  ghost predicate SomeMoved(a: Records, b: Records) {
    |a| == |b| && exists i | 0 <= i < |a| :: a[i].state.Pending? && !b[i].state.Pending?
  }

  lemma {:induction false} WebhooksMove(records: Records, trials: seq<Trial>, links: Links)
    ensures var after := RunJobs(records, Webhooks(trials), links);
      if PendingOrder(records) == [] || AllIdle(trials) then after == records else SomeMoved(records, after)
  {
    if trials != [] {
      var front, last := trials[..|trials| - 1], trials[|trials| - 1];
      assert trials == front + [last];
      WebhooksMove(records, front, links);
      WebhookSnoc(records, front, last, links);
      var between := RunJobs(records, Webhooks(front), links);
      WebhookMoves(between, last, links);
      hide RunJobs, PendingOrder, WebhookRecords, Idle;
      assert AllIdle(trials) <==> AllIdle(front) && Idle(last);
    }
  }

  /** How many records a batch leaves PENDING: an idle attempt leaves its record too. */
  function LeftPending(records: Records, trials: seq<Trial>, links: Links): nat {
    var m := Attempts(records, trials, links);
    |PendingOrder(records)| - if m > 0 && Idle(trials[m - 1]) then m - 1 else m
  }

  lemma LeftPendingMeans(records: Records, trials: seq<Trial>, links: Links)
    ensures |PendingOrder(BatchRecords(records, trials, links))| == LeftPending(records, trials, links)
  {
    var order, m := PendingOrder(records), Attempts(records, trials, links);
    StopMeans(records, trials, links);
    hide PendingOrder, Aborts, Attempts, AfterBatch;
    if m > 0 {
      NoAbortNoneIdle(records, order, trials, links, m - 1);
      if Idle(trials[m - 1]) {
        OrderAfter(records, trials, links, m - 1);
        IdleAttempt(records, order, trials, links, m);
      } else {
        assert NoneIdle(trials, m);
        OrderAfter(records, trials, links, m);
      }
    } else {
      OrderAfter(records, trials, links, 0);
    }
  }

  lemma IdleAttempt(records: Records, order: seq<nat>, trials: seq<Trial>, links: Links, m: nat)
    requires 0 < m <= |order| && m <= |trials| && InOrder(records, order) && Idle(trials[m - 1])
    ensures AttemptFirst(records, order, trials, links, m) == AttemptFirst(records, order, trials, links, m - 1)
  {
    NotYet(records, order, trials, links, m - 1, m - 1);
    AbortMeans(records[order[m - 1]], trials[m - 1], links);
    hide AfterBatch, Aborts, Idle;
  }

  /** Up to where a batch of as many attempts stops, webhook runs leave what it leaves. */
  lemma WebhooksUpToStop(records: Records, trials: seq<Trial>, links: Links)
    ensures var first := trials[..Attempts(records, trials, links)];
      Same(RunJobs(records, Webhooks(first), links), BatchRecords(records, trials, links))
  {
    var order, m := PendingOrder(records), Attempts(records, trials, links);
    var first := trials[..m];
    StopMeans(records, trials, links);
    hide PendingOrder, Attempts, BatchRecords, NoAbortBefore, RunJobs, Same, AttemptFirst;
    StopOfPrefix(records, order, trials, links, m);
    StopsAt(records, order, first, links, m);
    StopsAt(records, order, trials, links, m);
    WebhooksAreOneBatch(records, first, links);
  }

  lemma PrefixTrials(records: Records, order: seq<nat>, trials: seq<Trial>, links: Links, k: nat, m: nat)
    requires k <= |order| && k <= m <= |trials| && Places(records, order)
    ensures AttemptFirst(records, order, trials[..m], links, k) == AttemptFirst(records, order, trials, links, k)
    ensures NoAbortBefore(records, order, trials[..m], links, k) <==> NoAbortBefore(records, order, trials, links, k)
  {
    hide *;
    assert trials == trials[..m] + trials[m..];
    FirstTrials(records, order, trials[..m], trials[m..], links, k);
  }

  lemma StopOfPrefix(records: Records, order: seq<nat>, trials: seq<Trial>, links: Links, m: nat)
    requires order == PendingOrder(records) && IsStop(records, order, trials, links, m)
    ensures IsStop(records, order, trials[..m], links, m)
    ensures AttemptFirst(records, order, trials[..m], links, m) == AttemptFirst(records, order, trials, links, m)
    ensures m > 0 ==> NoneAborts(records, trials[..m][..m - 1], links)
  {
    assert Places(records, order);
    hide PendingOrder, Aborts, AttemptFirst, NoAbortBefore, InOrder;
    PrefixTrials(records, order, trials, links, m, m);
    if m > 0 {
      PrefixTrials(records, order, trials, links, m - 1, m);
      PrefixTrials(records, order, trials[..m], links, m - 1, m - 1);
    }
  }

  /** They agree exactly when the batch leaves nothing PENDING or every trial it did not come to is idle. */
  lemma WebhooksAgreeIff(records: Records, trials: seq<Trial>, links: Links)
    ensures Same(RunJobs(records, Webhooks(trials), links), BatchRecords(records, trials, links))
       <==> LeftPending(records, trials, links) == 0 || AllIdle(trials[Attempts(records, trials, links)..])
  {
    var m := Attempts(records, trials, links);
    var first, rest := trials[..m], trials[m..];
    assert trials == first + rest;
    var upTo, batch := RunJobs(records, Webhooks(first), links), BatchRecords(records, trials, links);
    WebhooksUpToStop(records, trials, links);
    WebhooksConcat(records, first, rest, links);
    WebhooksMove(upTo, rest, links);
    LeftPendingMeans(records, trials, links);
    SameOrder(upTo, batch);
    hide RunJobs, BatchRecords, PendingOrder, LeftPending, AllIdle, Attempts;
    var after := RunJobs(upTo, Webhooks(rest), links);
    if SomeMoved(upTo, after) {
      var i :| 0 <= i < |upTo| && upTo[i].state.Pending? && !after[i].state.Pending?;
      assert SameButText(upTo[i], batch[i]);
      assert !SameButText(after[i], batch[i]);
    }
  }

  /** Attempt k is the first that aborts. */
  ghost predicate IsFirstAbort(records: Records, trials: seq<Trial>, links: Links, k: nat) {
    var order := PendingOrder(records);
    && k < Min(|trials|, |order|)
    && NoAbortBefore(records, order, trials, links, k) && Aborts(records[order[k]], trials[k], links)
  }

  /** The attempt k takes the last PENDING record out of PENDING, or none of the later trials leaves a trace. */
  ghost predicate LeavesNothingToDo(records: Records, trials: seq<Trial>, k: nat)
    requires k < |trials|
  {
    (k + 1 == |PendingOrder(records)| && !Idle(trials[k])) || AllIdle(trials[k + 1..])
  }

  lemma FirstAbortStops(records: Records, trials: seq<Trial>, links: Links, k: nat)
    requires IsFirstAbort(records, trials, links, k)
    ensures Attempts(records, trials, links) == k + 1
  {
    hide PendingOrder, Aborts, NoAbortBefore;
    StopsAt(records, PendingOrder(records), trials, links, k + 1);
  }

  /**
   * n webhook runs leave what one batch run of size n leaves, error text aside, exactly when no attempt aborts, or the
   * first that does takes the last PENDING record out of PENDING, or all later trials are idle.
   */
  lemma WebhooksAreOneBatchIff(records: Records, trials: seq<Trial>, links: Links)
    ensures Same(RunJobs(records, Webhooks(trials), links), BatchRecords(records, trials, links))
       <==> forall k | IsFirstAbort(records, trials, links, k) :: LeavesNothingToDo(records, trials, k)
  {
    WebhooksAgreeIff(records, trials, links);
    StopMeans(records, trials, links);
    var m := Attempts(records, trials, links);
    hide PendingOrder, Aborts, Attempts, RunJobs, BatchRecords, Same;
    forall k | IsFirstAbort(records, trials, links, k)
      ensures k + 1 == m
    {
      FirstAbortStops(records, trials, links, k);
    }
    if m > 0 && Aborts(records[PendingOrder(records)[m - 1]], trials[m - 1], links) {
      assert IsFirstAbort(records, trials, links, m - 1);
    } else if m > 0 {
      AbortMeans(records[PendingOrder(records)[m - 1]], trials[m - 1], links);
    }
  }

  /**
   * Where they part: of two PENDING records the older one throws again while it is marked FAILED. The batch stops
   * there; the second webhook run goes on to the younger one, and finds its links in order.
   */
  lemma FormsPart(older: PaymentRecord, younger: PaymentRecord, reason: string, links: Links)
    requires older.state.Pending? && younger.state.Pending? && older.createdAt <= younger.createdAt
    requires LinksHold(younger, links)
    ensures var records := [older, younger];
      var trials := [Trial(AtSynced, reason, MarkLost, 0, 0), Trial(Nowhere, "", Marks, 0, 0)];
      var webhooks, batch := RunJobs(records, Webhooks(trials), links), BatchRecords(records, trials, links);
      && |webhooks| == |batch| == 2
      && batch[1] == younger && webhooks[1].state.Synced? && !Same(webhooks, batch)
  {
    var records := [older, younger];
    var trials := [Trial(AtSynced, reason, MarkLost, 0, 0), Trial(Nowhere, "", Marks, 0, 0)];
    OrderMeans(records, [0, 1]);
    StopsAt(records, [0, 1], trials, links, 1);
    var first := WebhookRecords(records, trials[0], links);
    assert first == [AfterWebhook(older, trials[0], links), younger];
    OrderMeans(first, [1]);
    WebhookSnoc(records, [], trials[0], links);
    WebhookSnoc(records, [trials[0]], trials[1], links);
    assert [] + [trials[0]] == [trials[0]] && [trials[0]] + [trials[1]] == trials && Webhooks([]) == [];
    AttemptEndsWell(younger, trials[1], links);
  }

  /** In particular they agree when no attempt but perhaps the last aborts. */
  lemma WebhooksAreOneBatch(records: Records, trials: seq<Trial>, links: Links)
    requires trials != [] ==> NoneAborts(records, trials[..|trials| - 1], links)
    ensures Same(RunJobs(records, Webhooks(trials), links), BatchRecords(records, trials, links))
  {
    hide NoneAborts, RunJobs, BatchRecords;
    TrialsOfWebhooks(trials);
    if trials != [] {
      TrialsOfWebhooks(trials[..|trials| - 1]);
      assert Webhooks(trials)[..|trials| - 1] == Webhooks(trials[..|trials| - 1]);
    }
    AnyMixIsOneBatch(records, Webhooks(trials), links);
  }
}
