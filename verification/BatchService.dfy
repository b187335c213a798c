/** The requests on a batch run as the service carries them out, item row by item row. */
module BatchService {
  import opened Bytes
  import opened Batch

  /** One pass over the items, filling the counts, the groups and the failed devices. */
  method Summarize(items: seq<Item>) returns (s: Summary)
    ensures s == Summarized(items)
  {
    var counts, sizes, groups, failed := map[], map[], map[], [];
    for i := 0 to |items|
      invariant counts == Counts(items[..i]) && sizes == Sizes(items[..i])
      invariant groups == Groups(items[..i]) && failed == FailedDevices(items[..i])
    {
      var x := items[i];
      assert items[..i + 1][..i] == items[..i];
      counts := Bump(counts, x.status);
      sizes := Bump(sizes, x.batch);
      groups := Joined(groups, x);
      if IsFailed(x.status) {
        failed := failed + [x.device];
      }
    }
    assert items[..|items|] == items;
    s := Summary(|items|, counts, sizes, groups, failed);
  }

  class BatchRun {
    var items: seq<Item>
    var status: RunStatus
    var listed: seq<int>

    function State(): Rollout
      reads this
    {
      Rollout(items, status, listed)
    }

    constructor (planned: seq<Item>)
      ensures State() == Rollout(planned, PendingStart, [])
    {
      items, status, listed := planned, PendingStart, [];
    }

    /** Starts the lowest pending batch unless an earlier one is on its way or has failures. */
    method StartNextBatch(manifestOk: bool, outcomes: seq<Outcome>) returns (started: Option<int>)
      requires |outcomes| == |items|
      modifies this
      ensures State() == Start(old(State()), manifestOk, outcomes)
      ensures started == if CanStart(old(State()), manifestOk) then NextBatch(old(items)) else None
    {
      if status == Terminated {
        return None;
      }
      var next := NextBatch(items);
      if next.None? || Blocked(items, next.value) || !manifestOk {
        return None;
      }
      var b := next.value;
      ghost var was, goal := items, Submitted(items, b, outcomes);
      for i := 0 to |items|
        invariant |items| == |was| && status == old(status) && listed == old(listed)
        invariant forall j | 0 <= j < |was| :: items[j] == if j < i then goal[j] else was[j]
      {
        if items[i].batch == b && IsPending(items[i].status) {
          items := items[i := StartedItem(items[i], outcomes[i])];
        }
      }
      assert items == goal;
      var summary := Summarize(items);
      status, listed := DeriveStatus(summary), summary.failed;
      started := next;
    }

    method PauseBatchRun() returns (ok: bool)
      modifies this
      ensures State() == Pause(old(State())) && ok == CanPause(old(State()))
    {
      if status == Terminated || exists i :: 0 <= i < |items| && IsActive(items[i].status) {
        return false;
      }
      if PendingIndexes(items) == [] {
        return false;
      }
      var summary := Summarize(items);
      status, listed, ok := Paused, summary.failed, true;
    }

    /** Cancels whatever is pending; tasks already created go on. */
    method TerminateBatchRun() returns (cancelled: nat)
      modifies this
      ensures State() == Terminate(old(State()))
      ensures cancelled == CountOf(old(items), Queued) + CountOf(old(items), WaitingBatch)
    {
      ghost var was, goal := items, Dropped(items);
      cancelled := 0;
      for i := 0 to |items|
        invariant |items| == |was| && cancelled == CountOf(was[..i], Queued) + CountOf(was[..i], WaitingBatch)
        invariant forall j | 0 <= j < |was| :: items[j] == if j < i then goal[j] else was[j]
      {
        assert was[..i + 1][..i] == was[..i];
        if IsPending(items[i].status) {
          items := items[i := items[i].(status := Cancelled)];
          cancelled := cancelled + 1;
        }
      }
      assert items == goal && was[..|was|] == was;
      var summary := Summarize(items);
      status, listed := Terminated, summary.failed;
    }

    /** Takes over what the gateway reports of the items that have a task. */
    method RefreshBatchRun(reports: seq<Report>)
      requires |reports| == |items|
      modifies this
      ensures State() == Refresh(old(State()), reports)
    {
      ghost var was, goal := items, Polled(items, reports);
      for i := 0 to |items|
        invariant |items| == |was| && status == old(status) && listed == old(listed)
        invariant forall j | 0 <= j < |was| :: items[j] == if j < i then goal[j] else was[j]
      {
        if items[i].task != "" {
          items := items[i := items[i].(status := Normalized(items[i].status, reports[i]))];
        }
      }
      assert items == goal;
      var summary := Summarize(items);
      status := if status == Terminated || status == Paused then status else DeriveStatus(summary);
      listed := summary.failed;
    }

    /** Creates tasks for the listed devices again; also on a terminated run. */
    method RetryFailedDevices(manifestOk: bool, outcomes: seq<Outcome>) returns (ok: bool)
      requires |outcomes| == |listed|
      modifies this
      ensures State() == Retry(old(State()), manifestOk, outcomes)
      ensures ok <==> old(listed) != [] && manifestOk && forall k | 0 <= k < |outcomes| :: outcomes[k].ok
    {
      if listed == [] || !manifestOk {
        return false;
      }
      var refused: seq<int> := [];
      for k := 0 to |listed|
        invariant refused == Refused(listed[..k], outcomes[..k])
        invariant refused == [] <==> forall j | 0 <= j < k :: outcomes[j].ok
      {
        assert listed[..k + 1][..k] == listed[..k] && outcomes[..k + 1][..k] == outcomes[..k];
        if !outcomes[k].ok {
          refused := refused + [listed[k]];
        }
      }
      assert listed[..|listed|] == listed && outcomes[..|listed|] == outcomes;
      ghost var was, goal := items, Resubmitted(items, listed, outcomes);
      for i := 0 to |items|
        invariant |items| == |was| && listed == old(listed)
        invariant forall j | 0 <= j < |was| :: items[j] == if j < i then goal[j] else was[j]
      {
        var k := Place(listed, items[i].device);
        if k < |listed| {
          items := items[i := RetriedItem(items[i], outcomes[k])];
        }
      }
      assert items == goal;
      status, listed, ok := if refused == [] then Approved else PartialFailed, refused, refused == [];
    }
  }
}
