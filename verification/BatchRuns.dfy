/** What every run of a staged rollout keeps: batches start in order, one at a time, over a fully updated past. */
module BatchRuns {
  import opened Bytes
  import opened Batch

  ghost predicate Pends(items: seq<Item>, i: int) {
    0 <= i < |items| && IsPending(items[i].status)
  }

  // ---- The invariant ----

  /** A device listed twice is listed in one batch. */
  ghost predicate Grouped(items: seq<Item>) {
    forall i, j | 0 <= i < |items| && 0 <= j < |items| && items[i].device == items[j].device ::
      items[i].batch == items[j].batch
  }

  /** Whatever has been submitted lies in an earlier batch than whatever is still pending. */
  ghost predicate Staged(items: seq<Item>) {
    forall i, j | 0 <= i < |items| && 0 <= j < |items| && !Pends(items, i) && Pends(items, j) ::
      items[i].batch < items[j].batch
  }

  ghost predicate Taskless(items: seq<Item>) {
    forall i | Pends(items, i) :: items[i].task == ""
  }

  /** Devices listed for a retry have items, all of them submitted. */
  ghost predicate Retriable(items: seq<Item>, listed: seq<int>) {
    && (forall d | d in listed :: exists i :: 0 <= i < |items| && items[i].device == d)
    && (forall i | 0 <= i < |items| && items[i].device in listed :: !Pends(items, i))
  }

  ghost predicate Inv(r: Rollout) {
    && Grouped(r.items) && Staged(r.items) && Taskless(r.items) && Retriable(r.items, r.listed)
    && (r.status == Terminated ==> PendingIndexes(r.items) == [])
    && (r.status == Paused ==> PendingIndexes(r.items) != [])
    && (r.status == Success <==> r.status != Terminated && Statuses(r.items) == {Succeeded})
  }

  /** A run as it is created: every device waits, and nothing is listed. */
  lemma FreshRun(items: seq<Item>)
    requires forall i | 0 <= i < |items| :: IsPending(items[i].status) && items[i].task == ""
    requires Grouped(items)
    ensures Inv(Rollout(items, PendingStart, []))
  {
    if items != [] { assert items[0].status in Statuses(items); }
  }

  // ---- Pending batches ----

  lemma SameIndexes(s: seq<int>, t: seq<int>)
    requires Increasing(s) && Increasing(t) && forall x :: x in s <==> x in t
    ensures s == t
    decreases |s|
  {
    assert |t| > 0 ==> t[0] in t;
    if s != [] {
      assert s[0] in s && s[0] in t && t != [];
      assert t[0] in t && t[0] in s;
      assert s[0] == t[0];
      forall x ensures x in s[1..] <==> x in t[1..] {
        assert x in s[1..] <==> x in s && x != s[0];
        assert x in t[1..] <==> x in t && x != t[0];
      }
      SameIndexes(s[1..], t[1..]);
    }
  }

  lemma {:induction false} PendsIsListed(items: seq<Item>, i: int)
    requires Pends(items, i)
    ensures items[i].batch in PendingIndexes(items)
    ensures PendingIndexes(items) != [] && PendingIndexes(items)[0] <= items[i].batch
  {
    var p := PendingIndexes(items);
    assert items[i].batch in p;
    var k :| 0 <= k < |p| && p[k] == items[i].batch;
    assert k > 0 ==> p[0] < p[k];
  }

  /** Items that neither become pending nor stop pending leave the pending batches alone. */
  lemma {:induction false} PendingKept(items: seq<Item>, items': seq<Item>)
    requires |items'| == |items|
    requires forall i | 0 <= i < |items| :: items'[i].batch == items[i].batch && (Pends(items', i) <==> Pends(items, i))
    ensures PendingIndexes(items') == PendingIndexes(items)
  {
    forall b ensures b in PendingIndexes(items') <==> b in PendingIndexes(items) {
      if b in PendingIndexes(items) {
        var i :| 0 <= i < |items| && IsPending(items[i].status) && items[i].batch == b;
        assert Pends(items, i) && Pends(items', i);
      }
      if b in PendingIndexes(items') {
        var i :| 0 <= i < |items'| && IsPending(items'[i].status) && items'[i].batch == b;
        assert Pends(items', i) && Pends(items, i);
      }
    }
    SameIndexes(PendingIndexes(items'), PendingIndexes(items));
  }

  /** Submitting the first pending batch takes exactly that batch off the pending ones. */
  lemma {:induction false} FirstTaken(items: seq<Item>, outcomes: seq<Outcome>)
    requires |outcomes| == |items| && PendingIndexes(items) != []
    ensures PendingIndexes(Submitted(items, PendingIndexes(items)[0], outcomes)) == PendingIndexes(items)[1..]
  {
    var p := PendingIndexes(items);
    var items' := Submitted(items, p[0], outcomes);
    var p' := PendingIndexes(items');
    forall b ensures b in p' <==> b in p[1..] {
      assert b in p[1..] <==> b in p && b != p[0];
      if b in p && b != p[0] {
        var i :| 0 <= i < |items| && IsPending(items[i].status) && items[i].batch == b;
        assert items'[i] == items[i];
      }
      if b in p' {
        var i :| 0 <= i < |items'| && IsPending(items'[i].status) && items'[i].batch == b;
        assert items'[i] == items[i];
      }
    }
    SameIndexes(p', p[1..]);
  }

  // ---- Starting ----

  /** A batch may start exactly when every item of every earlier batch has succeeded. */
  lemma {:induction false} ClearIff(items: seq<Item>)
    requires PendingIndexes(items) != []
    ensures !Blocked(items, PendingIndexes(items)[0]) <==>
            forall i | 0 <= i < |items| && items[i].batch < PendingIndexes(items)[0] :: items[i].status == Succeeded
  {
    forall i | 0 <= i < |items| && items[i].batch < PendingIndexes(items)[0]
      ensures !IsPending(items[i].status)
    {
      if IsPending(items[i].status) { PendsIsListed(items, i); }
    }
  }

  lemma StartKeeps(r: Rollout, ok: bool, outcomes: seq<Outcome>)
    requires Inv(r) && |outcomes| == |r.items|
    ensures Inv(Start(r, ok, outcomes))
    ensures PendingIndexes(Start(r, ok, outcomes).items)
         == if CanStart(r, ok) then PendingIndexes(r.items)[1..] else PendingIndexes(r.items)
  {
    if CanStart(r, ok) {
      FirstTaken(r.items, outcomes);
      SubmittedKeeps(r.items, outcomes);
      DerivedMeaning(Start(r, ok, outcomes).items);
    }
  }

  lemma {:induction false} SubmittedKeeps(items: seq<Item>, outcomes: seq<Outcome>)
    requires Grouped(items) && Staged(items) && Taskless(items)
    requires |outcomes| == |items| && PendingIndexes(items) != []
    ensures var items' := Submitted(items, PendingIndexes(items)[0], outcomes);
            Grouped(items') && Staged(items') && Taskless(items') && Retriable(items', FailedDevices(items'))
  {
    var b := PendingIndexes(items)[0];
    var items' := Submitted(items, b, outcomes);
    forall i, j | 0 <= i < |items| && 0 <= j < |items| && !Pends(items', i) && Pends(items', j)
      ensures items'[i].batch < items'[j].batch
    {
      assert Pends(items, j);
      PendsIsListed(items, j);
      if Pends(items, i) { assert items[i].batch == b; }
    }
    FailedRetriable(items');
  }

  lemma {:induction false} FailedRetriable(items: seq<Item>)
    requires Grouped(items) && Staged(items)
    ensures Retriable(items, FailedDevices(items))
  {
    forall i | 0 <= i < |items| && items[i].device in FailedDevices(items) ensures !Pends(items, i) {
      var k :| 0 <= k < |items| && IsFailed(items[k].status) && items[k].device == items[i].device;
      assert !Pends(items, k);
    }
  }

  // ---- The other requests ----

  /** Submitted items may change their status, pending ones are left alone. */
  ghost predicate Updated(items: seq<Item>, items': seq<Item>) {
    && |items'| == |items|
    && forall i | 0 <= i < |items| ::
         && items'[i].batch == items[i].batch && items'[i].device == items[i].device
         && (Pends(items', i) <==> Pends(items, i)) && (Pends(items, i) ==> items'[i] == items[i])
  }

  lemma {:induction false} UpdatedKeeps(items: seq<Item>, items': seq<Item>)
    requires Grouped(items) && Staged(items) && Taskless(items) && Updated(items, items')
    ensures Grouped(items') && Staged(items') && Taskless(items')
    ensures PendingIndexes(items') == PendingIndexes(items)
  {
    PendingKept(items, items');
  }

  lemma RefreshKeeps(r: Rollout, reports: seq<Report>)
    requires Inv(r) && |reports| == |r.items|
    ensures Inv(Refresh(r, reports)) && PendingIndexes(Refresh(r, reports).items) == PendingIndexes(r.items)
  {
    var items' := Polled(r.items, reports);
    forall i | 0 <= i < |r.items|
      ensures Pends(items', i) <==> Pends(r.items, i)
      ensures Pends(r.items, i) ==> items'[i] == r.items[i]
    {
    }
    UpdatedKeeps(r.items, items');
    FailedRetriable(items');
    DerivedMeaning(items');
    if r.status == Paused { PausedUnfinished(items'); }
  }

  lemma {:induction false} PausedUnfinished(items: seq<Item>)
    requires PendingIndexes(items) != []
    ensures Statuses(items) != {Succeeded}
  {
    var b := PendingIndexes(items)[0];
    assert b in PendingIndexes(items);
    var i :| 0 <= i < |items| && IsPending(items[i].status) && items[i].batch == b;
    assert items[i].status in Statuses(items);
  }

  lemma PauseKeeps(r: Rollout)
    requires Inv(r)
    ensures Inv(Pause(r)) && PendingIndexes(Pause(r).items) == PendingIndexes(r.items)
  {
    if CanPause(r) {
      FailedRetriable(r.items);
      PausedUnfinished(r.items);
    }
  }

  lemma TerminateKeeps(r: Rollout)
    requires Inv(r)
    ensures Inv(Terminate(r)) && PendingIndexes(Terminate(r).items) == []
  {
    var items' := Dropped(r.items);
    assert forall i :: !Pends(items', i);
    if PendingIndexes(items') != [] { assert PendingIndexes(items')[0] in PendingIndexes(items'); }
    FailedRetriable(items');
  }

  lemma RetryKeeps(r: Rollout, ok: bool, outcomes: seq<Outcome>)
    requires Inv(r) && |outcomes| == |r.listed|
    ensures Inv(Retry(r, ok, outcomes)) && PendingIndexes(Retry(r, ok, outcomes).items) == PendingIndexes(r.items)
  {
    hide Increasing, PendingIndexes, Place;
    if r.listed != [] && ok {
      var items' := Resubmitted(r.items, r.listed, outcomes);
      forall i | 0 <= i < |r.items|
        ensures Pends(items', i) <==> Pends(r.items, i)
        ensures Pends(r.items, i) ==> items'[i] == r.items[i]
      {
      }
      UpdatedKeeps(r.items, items');
      var d := r.listed[0];
      assert d in r.listed;
      var i :| 0 <= i < |r.items| && r.items[i].device == d;
      assert items'[i].status in Statuses(items') && items'[i].status != Succeeded;
      RetriableStays(r.items, items', r.listed, Refused(r.listed, outcomes));
    }
  }

  lemma RetriableStays(items: seq<Item>, items': seq<Item>, listed: seq<int>, refused: seq<int>)
    requires Retriable(items, listed) && Updated(items, items') && forall d | d in refused :: d in listed
    ensures Retriable(items', refused)
  {
    forall d | d in refused ensures exists i :: 0 <= i < |items'| && items'[i].device == d {
      var i :| 0 <= i < |items| && items[i].device == d;
      assert items'[i].device == d;
    }
  }

  // ---- The approval's list of failed devices ----

  /** The list names exactly the devices with a failed item. */
  ghost predicate Exact(r: Rollout) {
    forall d :: d in r.listed <==> d in FailedDevices(r.items)
  }

  /** A device listed more than once and refused once is refused at its first place too. */
  ghost predicate Consistent(listed: seq<int>, outcomes: seq<Outcome>)
    requires |outcomes| == |listed|
  {
    forall k | 0 <= k < |listed| && !outcomes[k].ok :: !outcomes[Place(listed, listed[k])].ok
  }

  lemma {:induction false} RefusedHas(listed: seq<int>, outcomes: seq<Outcome>, d: int)
    requires |outcomes| == |listed|
    ensures d in Refused(listed, outcomes) <==> exists k :: 0 <= k < |listed| && listed[k] == d && !outcomes[k].ok
  {
    if listed != [] {
      var n := |listed| - 1;
      RefusedHas(listed[..n], outcomes[..n], d);
      assert forall k | 0 <= k < n :: listed[..n][k] == listed[k] && outcomes[..n][k] == outcomes[k];
      if d in Refused(listed[..n], outcomes[..n]) {
        var k :| 0 <= k < n && listed[..n][k] == d && !outcomes[..n][k].ok;
        assert listed[k] == d && !outcomes[k].ok;
      }
    }
  }

  /** After a retry the failed devices are those listed whose first answer was a refusal. */
  lemma {:induction false} RetriedFailures(r: Rollout, outcomes: seq<Outcome>, d: int)
    requires |outcomes| == |r.listed| && Exact(r)
    ensures d in FailedDevices(Resubmitted(r.items, r.listed, outcomes)) <==>
            Place(r.listed, d) < |r.listed| && !outcomes[Place(r.listed, d)].ok
  {
    hide FailedDevices, IsPending;
    var items' := Resubmitted(r.items, r.listed, outcomes);
    var k := Place(r.listed, d);
    if k < |r.listed| {
      assert d in r.listed;
      var i :| 0 <= i < |r.items| && IsFailed(r.items[i].status) && r.items[i].device == d;
      assert items'[i] == RetriedItem(r.items[i], outcomes[k]);
    }
    if d in FailedDevices(items') {
      var i :| 0 <= i < |items'| && IsFailed(items'[i].status) && items'[i].device == d;
      assert IsFailed(r.items[i].status) ==> d in r.listed;
    }
  }

  /** A retry keeps the list exact exactly when no repeated device was first accepted and then refused. */
  lemma RetryExactIff(r: Rollout, outcomes: seq<Outcome>)
    requires |outcomes| == |r.listed| && Exact(r) && r.listed != []
    ensures Exact(Retry(r, true, outcomes)) <==> Consistent(r.listed, outcomes)
  {
    var r' := Retry(r, true, outcomes);
    forall d
      ensures d in r'.listed <==> exists k :: 0 <= k < |r.listed| && r.listed[k] == d && !outcomes[k].ok
      ensures d in FailedDevices(r'.items) <==> Place(r.listed, d) < |r.listed| && !outcomes[Place(r.listed, d)].ok
    {
      RefusedHas(r.listed, outcomes, d);
      RetriedFailures(r, outcomes, d);
    }
    if Exact(r') {
      forall k | 0 <= k < |r.listed| && !outcomes[k].ok ensures !outcomes[Place(r.listed, r.listed[k])].ok {
        assert r.listed[k] in r'.listed;
      }
    } else {
      var d :| !(d in r'.listed <==> d in FailedDevices(r'.items));
      assert Place(r.listed, d) < |r.listed| ==> r.listed[Place(r.listed, d)] == d;
    }
  }

  ghost predicate Repeats(listed: seq<int>) {
    exists i, j :: 0 <= i < j < |listed| && listed[i] == listed[j]
  }

  /** Accepted everywhere but at one place. */
  function RefusedAt(n: nat, k: nat): (outcomes: seq<Outcome>)
    ensures |outcomes| == n && forall i | 0 <= i < n :: outcomes[i].ok == (i != k)
  {
    seq(n, i => Outcome(i != k, None))
  }

  lemma {:induction false} FirstPlace(listed: seq<int>, k: nat)
    requires k < |listed|
    ensures Place(listed, listed[k]) <= k && listed[Place(listed, listed[k])] == listed[k]
  {
  }

  /** A retry keeps the list exact whatever the gateways answer if and only if no device is listed twice. */
  lemma RetryAlwaysExactIff(r: Rollout)
    requires Exact(r)
    ensures (forall outcomes: seq<Outcome> | |outcomes| == |r.listed| :: Exact(Retry(r, true, outcomes)))
            <==> !Repeats(r.listed)
  {
    if Repeats(r.listed) {
      var i, j :| 0 <= i < j < |r.listed| && r.listed[i] == r.listed[j];
      RepeatedRefusal(r, i, j);
    } else {
      forall outcomes: seq<Outcome> | |outcomes| == |r.listed| ensures Exact(Retry(r, true, outcomes)) {
        if r.listed != [] {
          forall k | 0 <= k < |r.listed| && !outcomes[k].ok ensures !outcomes[Place(r.listed, r.listed[k])].ok {
            FirstPlace(r.listed, k);
          }
          RetryExactIff(r, outcomes);
        }
      }
    }
  }

  /** The answers that show it: a device listed twice is accepted, then refused. */
  lemma RepeatedRefusal(r: Rollout, i: nat, j: nat)
    requires Exact(r) && i < j < |r.listed| && r.listed[i] == r.listed[j]
    ensures !Exact(Retry(r, true, RefusedAt(|r.listed|, j)))
  {
    FirstPlace(r.listed, i);
    RetryExactIff(r, RefusedAt(|r.listed|, j));
  }

  /** A device planned twice in one batch, both items failed. */
  function FailedTwice(device: int): Rollout {
    var x := Item(device, 0, Failed, "t", 0);
    Rollout([x, x], RunFailed, [device, device])
  }

  lemma TwiceListed(device: int)
    ensures var r := FailedTwice(device); Inv(r) && r.listed == FailedDevices(r.items)
  {
    hide PendingIndexes;
    var r := FailedTwice(device);
    var x := r.items[0];
    assert [x, x][..1] == [x] && [x][..0] == [];
    assert FailedDevices([x]) == [device];
    assert x.status in Statuses(r.items);
  }

  /** Accepted, then refused: the device stays listed although no item of it has failed. */
  lemma RepeatedDevice(device: int)
    ensures var r := FailedTwice(device);
            var r' := Retry(r, true, [Outcome(true, None), Outcome(false, None)]);
            && Inv(r) && Exact(r) && r'.listed == [device] && FailedDevices(r'.items) == []
  {
    TwiceListed(device);
    hide Inv, FailedDevices;
    var r, outcomes := FailedTwice(device), [Outcome(true, None), Outcome(false, None)];
    assert outcomes[..1] == [Outcome(true, None)] && r.listed[..1] == [device] && [device][..0] == [];
    assert Refused([device], outcomes[..1]) == [];
    var items' := Resubmitted(r.items, r.listed, outcomes);
    assert items'[0].status == TaskCreated && items'[1].status == TaskCreated;
    if FailedDevices(items') != [] {
      assert FailedDevices(items')[0] in FailedDevices(items');
    }
  }

  /** Every other request leaves the list exact, or as it was. */
  lemma ListStaysExact(r: Rollout, op: Op)
    requires Fits(r, op) && Exact(r)
    requires op.RetryFailed? ==> Consistent(r.listed, op.outcomes)
    ensures Exact(Apply(r, op))
  {
    if op.RetryFailed? && r.listed != [] && op.manifestOk {
      RetryExactIff(r, op.outcomes);
    }
  }

  // ---- What no request changes ----

  /** Devices and batches stay; only a retry that goes through counts, once, for each item of a listed device. */
  lemma IdentityKept(r: Rollout, op: Op, i: nat)
    requires Fits(r, op) && i < |r.items|
    ensures |Apply(r, op).items| == |r.items|
    ensures var x, y := r.items[i], Apply(r, op).items[i];
            && y.device == x.device && y.batch == x.batch
            && y.retries == x.retries + (if op.RetryFailed? && op.manifestOk && x.device in r.listed then 1 else 0)
            && (y.task != x.task ==> op.StartNext? || op.RetryFailed?)
  {
    var k := Place(r.listed, r.items[i].device);
    assert k < |r.listed| ==> r.listed[k] in r.listed;
  }

  // ---- Whole runs ----

  /** The batch a request starts, if it starts one. */
  function StartedBy(r: Rollout, op: Op): seq<int> {
    if op.StartNext? && CanStart(r, op.manifestOk) then [PendingIndexes(r.items)[0]] else []
  }

  lemma ApplyKeeps(r: Rollout, op: Op)
    requires Inv(r) && Fits(r, op)
    ensures Inv(Apply(r, op))
    ensures PendingIndexes(Apply(r, op).items)
         == if op.TerminateRun? then [] else PendingIndexes(r.items)[|StartedBy(r, op)|..]
    ensures StartedBy(r, op) <= PendingIndexes(r.items)
  {
    match op
    case StartNext(ok, outcomes) => StartKeeps(r, ok, outcomes);
    case PauseRun => PauseKeeps(r);
    case TerminateRun => TerminateKeeps(r);
    case RefreshRun(reports) => RefreshKeeps(r, reports);
    case RetryFailed(ok, outcomes) => RetryKeeps(r, ok, outcomes);
  }

  predicate AllFit(r: Rollout, ops: seq<Op>)
    decreases |ops|
  {
    ops == [] || (Fits(r, ops[0]) && AllFit(Apply(r, ops[0]), ops[1..]))
  }

  function ApplyAll(r: Rollout, ops: seq<Op>): Rollout
    requires AllFit(r, ops)
    decreases |ops|
  {
    if ops == [] then r else ApplyAll(Apply(r, ops[0]), ops[1..])
  }

  /** The batches started along a run, in the order they were started. */
  function StartedAlong(r: Rollout, ops: seq<Op>): seq<int>
    requires AllFit(r, ops)
    decreases |ops|
  {
    if ops == [] then [] else StartedBy(r, ops[0]) + StartedAlong(Apply(r, ops[0]), ops[1..])
  }

  /**
   * Along every run the batches started and those still pending are, in this order, the batches that were pending
   * at first: each starts at most once, in increasing order. A termination drops the rest.
   */
  lemma {:induction false} BatchesInOrder(r: Rollout, ops: seq<Op>)
    requires Inv(r) && AllFit(r, ops)
    ensures Inv(ApplyAll(r, ops))
    ensures var p, s, q := PendingIndexes(r.items), StartedAlong(r, ops), PendingIndexes(ApplyAll(r, ops).items);
            && s <= p && Increasing(s)
            && q == if exists op :: op in ops && op.TerminateRun? then [] else p[|s|..]
    decreases |ops|
  {
    if ops != [] {
      var r', rest := Apply(r, ops[0]), ops[1..];
      ApplyKeeps(r, ops[0]);
      BatchesInOrder(r', rest);
      assert forall op :: op in ops <==> op == ops[0] || op in rest;
      InOrderStep(PendingIndexes(r.items), StartedBy(r, ops[0]), StartedAlong(r', rest));
    }
  }

  lemma InOrderStep(p: seq<int>, a: seq<int>, b: seq<int>)
    requires Increasing(p) && a <= p && (b <= p[|a|..] || b == [])
    ensures a + b <= p && Increasing(a + b) && p[|a|..][|b|..] == p[|a + b|..]
  {
    assert forall i | 0 <= i < |a + b| :: (a + b)[i] == p[i];
  }
}
