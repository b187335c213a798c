/** What each request on a staged rollout does, item by item, in terms of the answers it gets. */
module BatchEffects {
  import opened Batch
  import opened BatchRuns

  // ---- Starting a batch ----

  /** The lowest batch that has a pending item. */
  ghost predicate Lowest(items: seq<Item>, b: int) {
    && (exists i :: Pends(items, i) && items[i].batch == b)
    && forall i | Pends(items, i) :: b <= items[i].batch
  }

  lemma {:induction false} LowestIs(items: seq<Item>, b: int)
    ensures Lowest(items, b) <==> PendingIndexes(items) != [] && PendingIndexes(items)[0] == b
  {
    var p := PendingIndexes(items);
    forall i | Pends(items, i) ensures p != [] && p[0] <= items[i].batch { PendsIsListed(items, i); }
    if p != [] {
      assert p[0] in p;
      var i :| 0 <= i < |items| && IsPending(items[i].status) && items[i].batch == p[0];
      assert Pends(items, i);
    }
  }

  /** A start goes through exactly when the run goes on, the manifest is there and every earlier item has succeeded. */
  lemma {:induction false} StartsIff(r: Rollout, ok: bool, b: int)
    requires Lowest(r.items, b)
    ensures CanStart(r, ok) <==>
            ok && r.status != Terminated
            && forall i | 0 <= i < |r.items| && r.items[i].batch < b :: r.items[i].status == Succeeded
  {
    LowestIs(r.items, b);
    ClearIff(r.items);
  }

  /** In a sound run everything in the batch to start is pending, and everything before it has succeeded. */
  lemma {:induction false} Around(r: Rollout, ok: bool, b: int, i: nat)
    requires Inv(r) && Lowest(r.items, b) && CanStart(r, ok) && i < |r.items|
    ensures r.items[i].batch >= b <==> Pends(r.items, i)
    ensures r.items[i].batch < b <==> r.items[i].status == Succeeded
  {
    StartsIff(r, ok, b);
    var j :| Pends(r.items, j) && r.items[j].batch == b;
    assert !Pends(r.items, i) ==> r.items[i].batch < r.items[j].batch;
  }

  /**
   * A start that goes through takes up the lowest batch alone. An accepted item is active under the task its answer
   * named, a refused one has failed, and the devices listed for a retry are exactly those that were refused.
   */
  lemma {:induction false} StartAnswers(r: Rollout, ok: bool, outcomes: seq<Outcome>, b: int)
    requires Inv(r) && |outcomes| == |r.items| && Lowest(r.items, b) && CanStart(r, ok)
    ensures var r' := Start(r, ok, outcomes);
            && |r'.items| == |r.items|
            && (forall i | 0 <= i < |r.items| ::
                  var x, y, o := r.items[i], r'.items[i], outcomes[i];
                  if x.batch != b then y == x
                  else if o.ok then y.status == TaskCreated && y.task == (if o.task.Some? then o.task.value else "")
                  else y.status == SubmitFailed)
            && (forall d :: d in r'.listed <==>
                  exists i :: 0 <= i < |r.items| && r.items[i].device == d && r.items[i].batch == b && !outcomes[i].ok)
            && r'.status == Verdict(Statuses(r'.items))
  {
    hide Inv, CanStart;
    LowestIs(r.items, b);
    var r' := Start(r, ok, outcomes);
    StartedByIndex(r, ok, outcomes, b);
    DerivedIsVerdict(r'.items);
    hide Start, PendingIndexes, Derived, Verdict, Statuses, Lowest;
    forall d ensures d in r'.listed <==>
      exists i :: 0 <= i < |r.items| && r.items[i].device == d && r.items[i].batch == b && !outcomes[i].ok
    {
      if i: int :| 0 <= i < |r.items| && r.items[i].device == d && r.items[i].batch == b && !outcomes[i].ok {
        assert IsFailed(r'.items[i].status) && r'.items[i].device == d;
      }
    }
  }

  lemma {:induction false} StartedByIndex(r: Rollout, ok: bool, outcomes: seq<Outcome>, b: int)
    requires Inv(r) && |outcomes| == |r.items| && Lowest(r.items, b) && CanStart(r, ok)
    ensures var r' := Start(r, ok, outcomes);
            && |r'.items| == |r.items| && r'.status == Derived(r'.items) && r'.listed == FailedDevices(r'.items)
            && forall i | 0 <= i < |r.items| ::
                 var x, y, o := r.items[i], r'.items[i], outcomes[i];
                 && y.device == x.device
                 && (x.batch != b ==> y == x && !IsFailed(y.status))
                 && (x.batch == b && o.ok ==>
                       y.status == TaskCreated && y.task == if o.task.Some? then o.task.value else "")
                 && (x.batch == b && !o.ok ==> y.status == SubmitFailed)
  {
    LowestIs(r.items, b);
    hide Inv, CanStart, PendingIndexes, Derived, FailedDevices, Lowest;
    forall i: nat | i < |r.items|
      ensures r.items[i].batch >= b <==> Pends(r.items, i)
      ensures r.items[i].batch < b <==> r.items[i].status == Succeeded
    {
      Around(r, ok, b, i);
    }
  }

  // ---- The other requests ----

  /** A listed device that was refused somewhere. */
  ghost predicate RefusedSomewhere(listed: seq<int>, outcomes: seq<Outcome>, d: int)
    requires |outcomes| == |listed|
  {
    exists k :: 0 <= k < |listed| && listed[k] == d && !outcomes[k].ok
  }

  /**
   * A retry that goes through gives every item of a listed device that device's first answer, under the task named
   * or else the old one, and touches no other. It is approved exactly when nobody was refused.
   */
  lemma {:induction false} RetryAnswers(r: Rollout, outcomes: seq<Outcome>)
    requires |outcomes| == |r.listed| && r.listed != []
    ensures var r' := Retry(r, true, outcomes);
            && |r'.items| == |r.items|
            && (forall i, k | 0 <= i < |r.items| && 0 <= k < |r.listed| && r.listed[k] == r.items[i].device
                              && r.items[i].device !in r.listed[..k] ::
                  var x, o := r.items[i], outcomes[k];
                  r'.items[i] == Item(x.device, x.batch, if o.ok then TaskCreated else SubmitFailed,
                                      if o.task.Some? then o.task.value else x.task, x.retries + 1))
            && (forall i | 0 <= i < |r.items| && r.items[i].device !in r.listed :: r'.items[i] == r.items[i])
            && (forall d :: d in r'.listed <==> RefusedSomewhere(r.listed, outcomes, d))
            && r'.status == if forall k | 0 <= k < |r.listed| :: outcomes[k].ok then Approved else PartialFailed
  {
    var r' := Retry(r, true, outcomes);
    forall d ensures d in r'.listed <==> RefusedSomewhere(r.listed, outcomes, d) { RefusedHas(r.listed, outcomes, d); }
    RefusedNone(r.listed, outcomes);
    forall i, k | 0 <= i < |r.items| && 0 <= k < |r.listed| && r.listed[k] == r.items[i].device
                  && r.items[i].device !in r.listed[..k]
      ensures Place(r.listed, r.items[i].device) == k
    {
      var j := Place(r.listed, r.items[i].device);
      if j < k { InPrefix(r.listed, j, k); }
    }
  }

  lemma InPrefix(s: seq<int>, j: nat, k: nat)
    requires j < k <= |s|
    ensures s[j] in s[..k]
  {
    assert s[..k][j] == s[j];
  }

  lemma {:induction false} RefusedNone(listed: seq<int>, outcomes: seq<Outcome>)
    requires |outcomes| == |listed|
    ensures Refused(listed, outcomes) == [] <==> forall k | 0 <= k < |listed| :: outcomes[k].ok
  {
    if listed != [] {
      var n := |listed| - 1;
      RefusedNone(listed[..n], outcomes[..n]);
      assert forall k | 0 <= k < n :: outcomes[..n][k] == outcomes[k];
    }
  }

  /**
   * A refresh gives every item that has a task the state the gateway reports, and leaves every other alone; a task the
   * gateway no longer knows counts as created if it was queued, which no item of a sound run with a task is. A paused
   * or terminated run stays so, any other takes the status its items amount to.
   */
  lemma RefreshAnswers(r: Rollout, reports: seq<Report>)
    requires |reports| == |r.items|
    ensures var r' := Refresh(r, reports);
            && |r'.items| == |r.items|
            && (forall i | 0 <= i < |r.items| ::
                  var x, y := r.items[i], r'.items[i];
                  && y == x.(status := y.status) && (x.task == "" ==> y == x)
                  && (x.task != "" && reports[i].Says? ==> y.status == reports[i].state)
                  && (x.task != "" && !reports[i].Says? ==>
                        y.status == if reports[i].Missing? && x.status == Queued then TaskCreated else x.status)
                  && (Inv(r) && !reports[i].Says? ==> y == x))
            && (forall d :: d in r'.listed <==>
                  exists i :: 0 <= i < |r.items| && r'.items[i].device == d && IsFailed(r'.items[i].status))
            && r'.status == if r.status in {Terminated, Paused} then r.status else Verdict(Statuses(r'.items))
  {
    hide PendingIndexes, Staged, Retriable, Statuses, Verdict, Derived, FailedDevices;
    forall i | Inv(r) && 0 <= i < |r.items| && r.items[i].task != "" ensures r.items[i].status != Queued {
      assert !Pends(r.items, i);
    }
    DerivedIsVerdict(Polled(r.items, reports));
  }

  /** A termination cancels what is pending, and nothing else; the cancelled devices count as failed. */
  lemma TerminateAnswers(r: Rollout)
    ensures var r' := Terminate(r);
            && |r'.items| == |r.items| && r'.status == Terminated
            && (forall i | 0 <= i < |r.items| ::
                  var x := r.items[i];
                  r'.items[i] == if x.status in {Queued, WaitingBatch} then x.(status := Cancelled) else x)
            && (forall d :: d in r'.listed <==>
                  exists i :: 0 <= i < |r.items| && r.items[i].device == d
                              && r.items[i].status !in {TaskCreated, Running, Succeeded})
  {
    hide FailedDevices;
    var r' := Terminate(r);
    forall i | 0 <= i < |r.items|
      ensures IsFailed(r'.items[i].status) <==> r.items[i].status !in {TaskCreated, Running, Succeeded}
      ensures r'.items[i].device == r.items[i].device
    {
    }
    forall d ensures d in r'.listed <==>
      exists i :: 0 <= i < |r.items| && r.items[i].device == d
                  && r.items[i].status !in {TaskCreated, Running, Succeeded}
    {
      if d in r'.listed {
        var i :| 0 <= i < |r'.items| && IsFailed(r'.items[i].status) && r'.items[i].device == d;
        assert r.items[i].device == d;
      }
      if i: int :| 0 <= i < |r.items| && r.items[i].device == d
                   && r.items[i].status !in {TaskCreated, Running, Succeeded} {
        assert IsFailed(r'.items[i].status) && r'.items[i].device == d;
      }
    }
  }

  /** A pause takes effect exactly between batches: something waits, nothing is on its way, the run is not over. */
  lemma PauseAnswers(r: Rollout)
    ensures var pauses := r.status != Terminated && (exists i :: Pends(r.items, i))
                          && forall i | 0 <= i < |r.items| :: r.items[i].status !in {TaskCreated, Running};
            var r' := Pause(r);
            && r'.items == r.items
            && (pauses ==> r'.status == Paused && r'.listed == FailedDevices(r.items)) && (!pauses ==> r' == r)
  {
    var p := PendingIndexes(r.items);
    if i :| Pends(r.items, i) { PendsIsListed(r.items, i); }
    if p != [] {
      assert p[0] in p;
      var i :| 0 <= i < |r.items| && IsPending(r.items[i].status) && r.items[i].batch == p[0];
      assert Pends(r.items, i);
    }
  }
}
