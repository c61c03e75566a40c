/** A payment sync batch as its attempts in turn, also when it aborts; how batches compose. */
module PaymentBatches {
  import opened Lists
  import opened PaymentSync
  import opened PaymentAgreement

  /** An attempt whose first update and whose update to FAILED throw before they take effect leaves no trace. */
  predicate Idle(trial: Trial) {
    trial.site.AtStart? && trial.marking.MarkLost?
  }

  ghost predicate NoneIdle(trials: seq<Trial>, k: nat)
    requires k <= |trials|
  {
    forall j | 0 <= j < k :: !Idle(trials[j])
  }

  lemma AbortMeans(record: PaymentRecord, trial: Trial, links: Links)
    ensures Aborts(record, trial, links)
       <==> !trial.marking.Marks? && !(LinksHold(record, links) && Undisturbed(record, trial))
    ensures Idle(trial) ==> Aborts(record, trial, links) && AfterBatch(record, trial, links) == record
  {
    ThrowAlike(record, trial, links);
  }

  /** Attempting the first k records of the order leaves the others PENDING, in the same order. */
  lemma OrderAfter(records: Records, trials: seq<Trial>, links: Links, k: nat)
    requires k <= |PendingOrder(records)| && k <= |trials| && NoneIdle(trials, k)
    ensures var order := PendingOrder(records);
      PendingOrder(AttemptFirst(records, order, trials, links, k)) == order[k..]
  {
    var order := PendingOrder(records);
    var after := AttemptFirst(records, order, trials, links, k);
    AttemptMeans(records, order, trials, links, k);
    AttemptKeepsKeys(records, order, trials, links, k);
    hide PendingOrder, AttemptFirst, AfterBatch;
    assert InOrder(after, order[k..]);
    forall i: nat
      ensures i in order[k..] <==> i < |after| && after[i].state.Pending?
    {
      PendingAfter(records, after, order, trials, links, k, i);
    }
    OrderMeans(after, order[k..]);
  }

  lemma PendingAfter(
    records: Records, after: Records, order: seq<nat>, trials: seq<Trial>, links: Links, k: nat, i: nat)
    requires IsPendingOrder(records, order) && k <= |order| && k <= |trials| && NoneIdle(trials, k)
    requires |after| == |records| && IsAttempted(records, after, order, trials, links, k)
    ensures i in order[k..] <==> i < |after| && after[i].state.Pending?
  {
    hide AfterBatch;
    if i in order {
      var j :| 0 <= j < |order| && order[j] == i;
      if j < k {
        assert order[j] in order;
        assert records[order[j]].state.Pending?;
        AttemptEndsWell(records[i], trials[j], links);
        assert !Idle(trials[j]);
        assert !after[i].state.Pending?;
        forall m | k <= m < |order|
          ensures order[m] != i
        {
          assert Before(records, order[j], order[m]);
        }
      } else {
        assert order[k..][j - k] == i;
        NotAmongEarlier(records, order, j);
        assert NotAmong(i, order, k);
      }
    } else {
      assert NotAmong(i, order, k);
    }
  }

  /** One batch attempt: the oldest PENDING record, if there is one. */
  lemma BatchOfOne(records: Records, trial: Trial, links: Links)
    ensures var order := PendingOrder(records);
      BatchRecords(records, [trial], links)
      == if order == [] then records else records[order[0] := AfterBatch(records[order[0]], trial, links)]
  {
    var order := PendingOrder(records);
    hide PendingOrder, AfterBatch, Aborts;
    if order != [] {
      assert AttemptFirst(records, order, [trial], links, 0) == records;
      StopsAt(records, order, [trial], links, 1);
    }
  }

  lemma BatchOfNone(records: Records, links: Links)
    ensures BatchRecords(records, [], links) == records
  {
  }

  /** No record that a batch comes to throws twice. */
  ghost predicate NoneAborts(records: Records, trials: seq<Trial>, links: Links) {
    var order := PendingOrder(records);
    NoAbortBefore(records, order, trials, links, Min(|trials|, |order|))
  }

  lemma NoAbortNoneIdle(records: Records, order: seq<nat>, trials: seq<Trial>, links: Links, k: nat)
    requires k <= |order| && k <= |trials| && Places(records, order) && NoAbortBefore(records, order, trials, links, k)
    ensures NoneIdle(trials, k)
  {
    hide Aborts, Idle;
    forall j | 0 <= j < k
      ensures !Idle(trials[j])
    {
      AbortMeans(records[order[j]], trials[j], links);
    }
  }

  /** A longer list of trials does not change what the first attempts do. */
  lemma {:induction false} FirstTrials(
    records: Records, order: seq<nat>, trials: seq<Trial>, more: seq<Trial>, links: Links, k: nat)
    requires k <= |order| && k <= |trials| && Places(records, order)
    ensures AttemptFirst(records, order, trials + more, links, k) == AttemptFirst(records, order, trials, links, k)
    ensures NoAbortBefore(records, order, trials + more, links, k) <==> NoAbortBefore(records, order, trials, links, k)
  {
    assert forall j | 0 <= j < k :: (trials + more)[j] == trials[j];
    if k > 0 {
      FirstTrials(records, order, trials, more, links, k - 1);
      hide AfterBatch, Aborts;
    }
  }

  /** A batch that does not abort leaves the rest of the order PENDING, unchanged. */
  lemma FullBatch(records: Records, trials: seq<Trial>, links: Links)
    requires NoneAborts(records, trials, links)
    ensures var order := PendingOrder(records);
      var k := Min(|trials|, |order|);
      var after := BatchRecords(records, trials, links);
      && Attempts(records, trials, links) == k && |after| == |records|
      && after == AttemptFirst(records, order, trials, links, k)
      && PendingOrder(after) == order[k..]
      && forall j | k <= j < |order| :: after[order[j]] == records[order[j]]
  {
    var order := PendingOrder(records);
    var k := Min(|trials|, |order|);
    hide PendingOrder, AfterBatch, Aborts, AttemptFirst;
    NoAbortNoneIdle(records, order, trials, links, k);
    StopsAt(records, order, trials, links, k);
    OrderAfter(records, trials, links, k);
    forall j | k <= j < |order|
      ensures AttemptFirst(records, order, trials, links, k)[order[j]] == records[order[j]]
    {
      NotYet(records, order, trials, links, k, j);
    }
  }

  lemma NotYet(records: Records, order: seq<nat>, trials: seq<Trial>, links: Links, k: nat, j: nat)
    requires k <= j < |order| && k <= |trials| && InOrder(records, order)
    ensures AttemptFirst(records, order, trials, links, k)[order[j]] == records[order[j]]
  {
    AttemptMeans(records, order, trials, links, k);
    NotAmongEarlier(records, order, j);
  }

  /** A batch with one more attempt is the batch, and then a batch of one. */
  lemma BatchSnoc(records: Records, trials: seq<Trial>, trial: Trial, links: Links)
    requires NoneAborts(records, trials, links)
    ensures BatchRecords(records, trials + [trial], links)
         == BatchRecords(BatchRecords(records, trials, links), [trial], links)
  {
    var order := PendingOrder(records);
    FullBatch(records, trials, links);
    hide *;
    if |trials| < |order| {
      SnocWithin(records, trials, trial, links);
    } else {
      SnocBeyond(records, trials, trial, links);
    }
  }

  lemma SnocWithin(records: Records, trials: seq<Trial>, trial: Trial, links: Links)
    requires NoneAborts(records, trials, links) && |trials| < |PendingOrder(records)|
    ensures BatchRecords(records, trials + [trial], links)
         == BatchRecords(BatchRecords(records, trials, links), [trial], links)
  {
    var order, n, more := PendingOrder(records), |trials|, trials + [trial];
    var i, after := order[n], BatchRecords(records, trials, links);
    FullBatch(records, trials, links);
    hide PendingOrder, AfterBatch, InOrder, BatchRecords, Aborts, Attempts, NoAbortBefore;
    FirstTrials(records, order, trials, [trial], links, n);
    StopsAfterAll(records, order, more, links, n + 1);
    OneMoreAttempt(records, order, more, links, n);
    hide AttemptFirst;
    assert BatchRecords(records, more, links) == after[i := AfterBatch(records[i], trial, links)];
    BatchOfOne(after, trial, links);
    assert PendingOrder(after)[0] == i;
  }

  lemma SnocBeyond(records: Records, trials: seq<Trial>, trial: Trial, links: Links)
    requires NoneAborts(records, trials, links) && |trials| >= |PendingOrder(records)|
    ensures BatchRecords(records, trials + [trial], links)
         == BatchRecords(BatchRecords(records, trials, links), [trial], links)
  {
    var order := PendingOrder(records);
    FullBatch(records, trials, links);
    hide PendingOrder, AfterBatch, InOrder, BatchRecords, Aborts, Attempts, NoAbortBefore;
    FirstTrials(records, order, trials, [trial], links, |order|);
    StopsAfterAll(records, order, trials + [trial], links, |order|);
    BatchOfOne(BatchRecords(records, trials, links), trial, links);
  }

  lemma OneMoreAttempt(records: Records, order: seq<nat>, trials: seq<Trial>, links: Links, k: nat)
    requires k < |order| && k < |trials| && Places(records, order)
    ensures var i := order[k];
      AttemptFirst(records, order, trials, links, k + 1)
      == AttemptFirst(records, order, trials, links, k)[i := AfterBatch(records[i], trials[k], links)]
  {
    hide AfterBatch;
  }

  lemma StopsAfterAll(records: Records, order: seq<nat>, trials: seq<Trial>, links: Links, k: nat)
    requires order == PendingOrder(records) && k == Min(|trials|, |order|)
    requires NoAbortBefore(records, order, trials, links, if k == |trials| && k > 0 then k - 1 else k)
    ensures BatchRecords(records, trials, links) == AttemptFirst(records, order, trials, links, k)
  {
    hide PendingOrder, BatchRecords, Aborts, Attempts;
    StopsAt(records, order, trials, links, k);
  }

  /** Once a batch aborts, further trials make no difference. */
  lemma AbortStops(records: Records, trials: seq<Trial>, more: seq<Trial>, links: Links)
    requires !NoneAborts(records, trials, links)
    ensures BatchRecords(records, trials + more, links) == BatchRecords(records, trials, links)
    ensures !NoneAborts(records, trials + more, links)
  {
    var order, m := PendingOrder(records), Attempts(records, trials, links);
    StopMeans(records, trials, links);
    hide PendingOrder, BatchRecords, Aborts, Attempts;
    FirstTrials(records, order, trials, more, links, m);
    FirstTrials(records, order, trials, more, links, m - 1);
    StopsAt(records, order, trials, links, m);
    StopsAt(records, order, trials + more, links, m);
  }

  lemma NoneAbortsSplit(records: Records, first: seq<Trial>, second: seq<Trial>, links: Links)
    requires NoneAborts(records, first, links)
    ensures NoneAborts(records, first + second, links)
       <==> NoneAborts(BatchRecords(records, first, links), second, links)
  {
    FullBatch(records, first, links);
    var order, after := PendingOrder(records), BatchRecords(records, first, links);
    var k := Min(|first|, |order|);
    hide PendingOrder, BatchRecords, Attempts, AttemptFirst, InOrder, NoAbortBefore;
    FirstTrials(records, order, first, second, links, k);
    NoAbortSplit(records, after, order, first, second, links, Min(|second|, |order[k..]|));
  }

  lemma NoAbortOneMore(records: Records, order: seq<nat>, trials: seq<Trial>, links: Links, k: nat)
    requires k < |order| && k < |trials| && Places(records, order)
    ensures NoAbortBefore(records, order, trials, links, k + 1)
       <==> NoAbortBefore(records, order, trials, links, k) && !Aborts(records[order[k]], trials[k], links)
    ensures NoAbortBefore(records, order, trials, links, 0)
  {
    hide Aborts;
  }

  lemma {:induction false} NoAbortSplit(
    records: Records, after: Records, order: seq<nat>, first: seq<Trial>, second: seq<Trial>, links: Links, l: nat)
    requires Places(records, order) && |after| == |records|
    requires var k := Min(|first|, |order|); forall j | k <= j < |order| :: after[order[j]] == records[order[j]]
    requires l <= |second| && l <= |order| - Min(|first|, |order|)
    ensures var k := Min(|first|, |order|);
      NoAbortBefore(records, order, first + second, links, k + l)
      <==> NoAbortBefore(records, order, first + second, links, k) && NoAbortBefore(after, order[k..], second, links, l)
  {
    var k, both := Min(|first|, |order|), first + second;
    var left := order[k..];
    assert l == 0 ==> NoAbortBefore(after, left, second, links, 0);
    hide Aborts, NoAbortBefore;
    if l > 0 {
      NoAbortSplit(records, after, order, first, second, links, l - 1);
      NoAbortOneMore(records, order, both, links, k + l - 1);
      NoAbortOneMore(after, left, second, links, l - 1);
    }
  }

  /**
   * Batches compose: one of size n that does not abort, and then one of size m, do what one of size n + m does; the
   * second may abort.
   */
  lemma {:induction false} BatchesCompose(records: Records, first: seq<Trial>, second: seq<Trial>, links: Links)
    requires NoneAborts(records, first, links)
    ensures BatchRecords(records, first + second, links)
         == BatchRecords(BatchRecords(records, first, links), second, links)
  {
    var after := BatchRecords(records, first, links);
    if second == [] {
      assert first + second == first;
      BatchOfNone(after, links);
    } else {
      var front, last := second[..|second| - 1], second[|second| - 1];
      assert second == front + [last] && first + second == (first + front) + [last];
      BatchesCompose(records, first, front, links);
      NoneAbortsSplit(records, first, front, links);
      hide BatchRecords, NoneAborts;
      if NoneAborts(after, front, links) {
        BatchSnoc(records, first + front, last, links);
        BatchSnoc(after, front, last, links);
      } else {
        AbortStops(records, first + front, [last], links);
        AbortStops(after, front, [last], links);
      }
    }
  }
}
