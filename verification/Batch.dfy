/** Staged rollout of an update over batches of devices: the run's items, its status and what each request does. */
module Batch {
  import opened Bytes

  datatype Status = Queued | WaitingBatch | TaskCreated | Running | Succeeded | Failed | SubmitFailed | Cancelled

  datatype RunStatus =
    | PendingStart | Empty | RunRunning | PartialFailed | RunFailed | Created | WaitingNext | Success | Approved
    | Paused | Terminated

  /** One device of a run; `task` is empty until a gateway task exists. */
  datatype Item = Item(device: int, batch: int, status: Status, task: string, retries: nat)

  /** A run: its items, its stored status, and the failed devices its approval lists for a retry. */
  datatype Rollout = Rollout(items: seq<Item>, status: RunStatus, listed: seq<int>)

  /** What creating a gateway task answered. */
  datatype Outcome = Outcome(ok: bool, task: Option<string>)

  /** What the gateway says of a task: no state field, an empty one, or a state other than the two pending ones. */
  type TaskState = s: Status | s != Queued && s != WaitingBatch witness Running

  datatype Report = Missing | Blank | Says(state: TaskState)

  predicate IsPending(s: Status) {
    s == Queued || s == WaitingBatch
  }

  predicate IsActive(s: Status) {
    s == TaskCreated || s == Running
  }

  predicate IsFailed(s: Status) {
    s == Failed || s == SubmitFailed || s == Cancelled
  }

  // ---- Pending batches ----

  ghost predicate Increasing(s: seq<int>) {
    forall i, j | 0 <= i < j < |s| :: s[i] < s[j]
  }

  /** Sorted insertion of an element that may already be there. */
  function Insert(s: seq<int>, x: int): (r: seq<int>)
    requires Increasing(s)
    ensures Increasing(r) && forall y :: y in r <==> y in s || y == x
    decreases |s|
  {
    if s == [] then [x]
    else if x < s[0] then [x] + s
    else if x == s[0] then s
    else
      var t := Insert(s[1..], x);
      assert s == [s[0]] + s[1..];
      assert forall i | 0 <= i < |t| :: t[i] in t && (t[i] == x || t[i] in s[1..]);
      [s[0]] + t
  }

  /** The batches that still have pending items, in order. */
  function PendingIndexes(items: seq<Item>): (r: seq<int>)
    ensures Increasing(r)
    ensures forall b :: b in r <==> exists i :: 0 <= i < |items| && IsPending(items[i].status) && items[i].batch == b
    decreases |items|
  {
    if items == [] then []
    else
      var init, last := items[..|items| - 1], items[|items| - 1];
      var r := PendingIndexes(init);
      assert forall i | 0 <= i < |init| :: init[i] == items[i];
      if IsPending(last.status) then Insert(r, last.batch) else r
  }

  function NextBatch(items: seq<Item>): Option<int> {
    var pending := PendingIndexes(items);
    if pending == [] then None else Some(pending[0])
  }

  // ---- Counting ----

  function CountOf(items: seq<Item>, s: Status): (n: nat)
    ensures n <= |items|
  {
    if items == [] then 0 else CountOf(items[..|items| - 1], s) + Hit(items[|items| - 1], s)
  }

  function Hit(x: Item, s: Status): nat {
    if x.status == s then 1 else 0
  }

  lemma {:induction false} CountMeans(items: seq<Item>, s: Status)
    ensures CountOf(items, s) > 0 <==> exists i :: 0 <= i < |items| && items[i].status == s
    ensures CountOf(items, s) == |items| <==> forall i | 0 <= i < |items| :: items[i].status == s
  {
    if items != [] {
      var init := items[..|items| - 1];
      assert forall i | 0 <= i < |init| :: init[i] == items[i];
      CountMeans(init, s);
    }
  }

  function Got<K>(m: map<K, nat>, k: K): nat {
    if k in m then m[k] else 0
  }

  function Bump<K>(m: map<K, nat>, k: K): map<K, nat> {
    m[k := Got(m, k) + 1]
  }

  /** How often each status occurs. */
  function Counts(items: seq<Item>): map<Status, nat> {
    if items == [] then map[] else Bump(Counts(items[..|items| - 1]), items[|items| - 1].status)
  }

  lemma {:induction false} CountsAre(items: seq<Item>, s: Status)
    ensures Got(Counts(items), s) == CountOf(items, s)
  {
    if items != [] { CountsAre(items[..|items| - 1], s); }
  }

  function FailedDevices(items: seq<Item>): (r: seq<int>)
    ensures forall d :: d in r <==> exists i :: 0 <= i < |items| && IsFailed(items[i].status) && items[i].device == d
  {
    if items == [] then []
    else
      var init, last := items[..|items| - 1], items[|items| - 1];
      assert forall i | 0 <= i < |init| :: init[i] == items[i];
      FailedDevices(init) + if IsFailed(last.status) then [last.device] else []
  }

  /** Per batch: the counts of its items' statuses, and its devices in order. */
  datatype Group = Group(counts: map<Status, nat>, devices: seq<int>)

  function Joined(m: map<int, Group>, x: Item): map<int, Group> {
    var g := if x.batch in m then m[x.batch] else Group(map[], []);
    m[x.batch := Group(Bump(g.counts, x.status), g.devices + [x.device])]
  }

  function Groups(items: seq<Item>): map<int, Group> {
    if items == [] then map[] else Joined(Groups(items[..|items| - 1]), items[|items| - 1])
  }

  function Sizes(items: seq<Item>): map<int, nat> {
    if items == [] then map[] else Bump(Sizes(items[..|items| - 1]), items[|items| - 1].batch)
  }

  datatype Summary = Summary(deviceCount: nat, counts: map<Status, nat>, sizes: map<int, nat>,
                             groups: map<int, Group>, failed: seq<int>)

  function Summarized(items: seq<Item>): Summary {
    Summary(|items|, Counts(items), Sizes(items), Groups(items), FailedDevices(items))
  }

  function InBatch(items: seq<Item>, b: int): (r: seq<Item>)
    ensures |r| > 0 <==> exists i :: 0 <= i < |items| && items[i].batch == b
  {
    if items == [] then []
    else
      var init, last := items[..|items| - 1], items[|items| - 1];
      assert forall i | 0 <= i < |init| :: init[i] == items[i];
      InBatch(init, b) + if last.batch == b then [last] else []
  }

  function Devices(items: seq<Item>): (r: seq<int>)
    ensures |r| == |items|
  {
    seq(|items|, i requires 0 <= i < |items| => items[i].device)
  }

  /** The summary's groups are the run cut by batch: each lists its own devices and counts its own items. */
  lemma {:induction false} GroupsAreBatches(items: seq<Item>, b: int)
    ensures b in Groups(items) <==> InBatch(items, b) != []
    ensures Got(Sizes(items), b) == |InBatch(items, b)|
    ensures b in Groups(items) ==> Groups(items)[b] == Group(Counts(InBatch(items, b)), Devices(InBatch(items, b)))
  {
    if items != [] {
      var init, last := items[..|items| - 1], items[|items| - 1];
      GroupsAreBatches(init, b);
      var was := InBatch(init, b);
      assert InBatch(items, b) == if last.batch == b then was + [last] else was;
      OneMore(was, last);
      hide Counts, Devices, InBatch;
    }
  }

  lemma {:induction false} OneMore(was: seq<Item>, last: Item)
    ensures Counts(was + [last]) == Bump(Counts(was), last.status)
    ensures Devices(was + [last]) == Devices(was) + [last.device]
    ensures Counts([]) == map[] && Devices([]) == []
  {
    assert (was + [last])[..|was|] == was;
  }

  /** The counts account for every item, and the failed ones for every failed device. */
  lemma {:induction false} CountsCover(items: seq<Item>)
    ensures |items| == CountOf(items, Queued) + CountOf(items, WaitingBatch) + CountOf(items, TaskCreated)
                       + CountOf(items, Running) + CountOf(items, Succeeded) + CountOf(items, Failed)
                       + CountOf(items, SubmitFailed) + CountOf(items, Cancelled)
    ensures |FailedDevices(items)| == CountOf(items, Failed) + CountOf(items, SubmitFailed) + CountOf(items, Cancelled)
  {
    if items != [] {
      var init, last := items[..|items| - 1], items[|items| - 1];
      CountsCover(init);
      OneHit(last);
    }
  }

  lemma OneHit(x: Item)
    ensures Hit(x, Queued) + Hit(x, WaitingBatch) + Hit(x, TaskCreated) + Hit(x, Running) + Hit(x, Succeeded)
            + Hit(x, Failed) + Hit(x, SubmitFailed) + Hit(x, Cancelled) == 1
    ensures IsFailed(x.status) <==> Hit(x, Failed) + Hit(x, SubmitFailed) + Hit(x, Cancelled) == 1
  {
  }

  /** The status a run's counts amount to. */
  function DeriveStatus(s: Summary): RunStatus {
    var failed := Got(s.counts, Failed) + Got(s.counts, SubmitFailed) + Got(s.counts, Cancelled);
    if s.deviceCount == 0 then Empty
    else if Got(s.counts, WaitingBatch) > 0 && (Got(s.counts, Running) > 0 || Got(s.counts, TaskCreated) > 0)
    then RunRunning
    else if failed > 0 then
      if Got(s.counts, Succeeded) + Got(s.counts, Running) + Got(s.counts, TaskCreated) > 0
      then PartialFailed else RunFailed
    else if Got(s.counts, Running) > 0 then RunRunning
    else if Got(s.counts, TaskCreated) > 0 then Created
    else if Got(s.counts, Queued) > 0 || Got(s.counts, WaitingBatch) > 0 then WaitingNext
    else if Got(s.counts, Succeeded) == s.deviceCount then Success
    else Approved
  }

  function Derived(items: seq<Item>): RunStatus {
    DeriveStatus(Summarized(items))
  }

  /** Termination and pausing outlast a refresh. */
  function Composed(stored: RunStatus, items: seq<Item>): RunStatus {
    if stored == Terminated || stored == Paused then stored else Derived(items)
  }

  function Statuses(items: seq<Item>): set<Status> {
    set i | 0 <= i < |items| :: items[i].status
  }

  const PENDING: set<Status> := {Queued, WaitingBatch}
  const ACTIVE: set<Status> := {TaskCreated, Running}
  const FAILED: set<Status> := {Failed, SubmitFailed, Cancelled}

  lemma {:induction false} CountSeen(items: seq<Item>, s: Status)
    ensures Got(Counts(items), s) > 0 <==> s in Statuses(items)
    ensures Got(Counts(items), s) == |items| <==> Statuses(items) <= {s}
  {
    CountsAre(items, s);
    CountMeans(items, s);
    if Statuses(items) <= {s} {
      forall i | 0 <= i < |items| ensures items[i].status == s { assert items[i].status in Statuses(items); }
    }
  }

  /** The derived status depends only on which statuses occur. */
  function Verdict(s: set<Status>): RunStatus {
    if s == {} then Empty
    else if WaitingBatch in s && (Running in s || TaskCreated in s) then RunRunning
    else if Failed in s || SubmitFailed in s || Cancelled in s then
      if Succeeded in s || Running in s || TaskCreated in s then PartialFailed else RunFailed
    else if Running in s then RunRunning
    else if TaskCreated in s then Created
    else if Queued in s || WaitingBatch in s then WaitingNext
    else Success
  }

  lemma DerivedIsVerdict(items: seq<Item>)
    ensures Derived(items) == Verdict(Statuses(items))
  {
    hide Counts, Statuses, FailedDevices, Groups, Sizes;
    CountSeen(items, Queued);
    CountSeen(items, WaitingBatch);
    CountSeen(items, TaskCreated);
    CountSeen(items, Running);
    CountSeen(items, Succeeded);
    CountSeen(items, Failed);
    CountSeen(items, SubmitFailed);
    CountSeen(items, Cancelled);
    if Verdict(Statuses(items)) == Success { Exhausted(Statuses(items)); }
    NoItems(items);
  }

  lemma NoItems(items: seq<Item>)
    ensures items == [] <==> Statuses(items) == {}
  {
    if items != [] { assert items[0].status in Statuses(items); }
  }

  /** With every other status absent only success is left. */
  lemma Exhausted(s: set<Status>)
    requires Queued !in s && WaitingBatch !in s && TaskCreated !in s && Running !in s
    requires Failed !in s && SubmitFailed !in s && Cancelled !in s
    ensures s <= {Succeeded}
  {
    forall x | x in s ensures x == Succeeded {
      assert x == Succeeded || x == Queued || x == WaitingBatch || x == TaskCreated || x == Running || x == Failed
             || x == SubmitFailed || x == Cancelled;
    }
  }

  lemma Apart(s: set<Status>)
    ensures s !! PENDING <==> Queued !in s && WaitingBatch !in s
    ensures s !! ACTIVE <==> TaskCreated !in s && Running !in s
    ensures s !! FAILED <==> Failed !in s && SubmitFailed !in s && Cancelled !in s
    ensures s == {Succeeded} <==> Succeeded in s && s !! PENDING && s !! ACTIVE && s !! FAILED
    ensures s == {} <==> Succeeded !in s && s !! PENDING && s !! ACTIVE && s !! FAILED
  {
    if s !! PENDING && s !! ACTIVE && s !! FAILED { Exhausted(s); }
  }

  /** What each derived status says about the items; "approved" is never derived. */
  lemma DerivedMeaning(items: seq<Item>)
    ensures var d, s := Derived(items), Statuses(items);
      && (d == Empty <==> s == {})
      && (d == Success <==> s == {Succeeded})
      && (d == WaitingNext <==> !(s !! PENDING) && s !! ACTIVE && s !! FAILED)
      && (d == RunFailed <==> !(s !! FAILED) && s !! ACTIVE && Succeeded !in s)
      && (d == Created <==> TaskCreated in s && s !! {Running, WaitingBatch} && s !! FAILED)
      && (d == RunRunning <==> (WaitingBatch in s && !(s !! ACTIVE)) || (Running in s && s !! FAILED))
      && d !in {Approved, PendingStart, Paused, Terminated}
  {
    DerivedIsVerdict(items);
    Apart(Statuses(items));
    hide Derived, Statuses;
  }

  // ---- Requests ----

  function StartedItem(x: Item, o: Outcome): Item {
    x.(status := if o.ok then TaskCreated else SubmitFailed, task := if o.task.Some? then o.task.value else "")
  }

  /** The pending items of one batch are submitted. */
  function Submitted(items: seq<Item>, b: int, outcomes: seq<Outcome>): (r: seq<Item>)
    requires |outcomes| == |items|
    ensures |r| == |items|
  {
    seq(|items|, i requires 0 <= i < |items| =>
      if items[i].batch == b && IsPending(items[i].status) then StartedItem(items[i], outcomes[i]) else items[i])
  }

  /** Some item of an earlier batch is on its way or has failed. */
  predicate Blocked(items: seq<Item>, b: int) {
    exists i :: 0 <= i < |items| && items[i].batch < b && (IsActive(items[i].status) || IsFailed(items[i].status))
  }

  predicate CanStart(r: Rollout, manifestOk: bool) {
    && r.status != Terminated && manifestOk
    && NextBatch(r.items).Some? && !Blocked(r.items, NextBatch(r.items).value)
  }

  function Start(r: Rollout, manifestOk: bool, outcomes: seq<Outcome>): Rollout
    requires |outcomes| == |r.items|
  {
    if !CanStart(r, manifestOk) then r
    else
      var items := Submitted(r.items, NextBatch(r.items).value, outcomes);
      Rollout(items, Derived(items), FailedDevices(items))
  }

  predicate CanPause(r: Rollout) {
    && r.status != Terminated && PendingIndexes(r.items) != []
    && forall i | 0 <= i < |r.items| :: !IsActive(r.items[i].status)
  }

  function Pause(r: Rollout): Rollout {
    if CanPause(r) then Rollout(r.items, Paused, FailedDevices(r.items)) else r
  }

  function Dropped(items: seq<Item>): (r: seq<Item>)
    ensures |r| == |items|
  {
    seq(|items|, i requires 0 <= i < |items| =>
      if IsPending(items[i].status) then items[i].(status := Cancelled) else items[i])
  }

  function Terminate(r: Rollout): Rollout {
    Rollout(Dropped(r.items), Terminated, FailedDevices(Dropped(r.items)))
  }

  /** The stored form of a reported state. An item's own "queued" would read back as a created task. */
  function Normalized(own: Status, report: Report): Status {
    match report
    case Missing => if own == Queued then TaskCreated else own
    case Blank => own
    case Says(s) => s
  }

  function Polled(items: seq<Item>, reports: seq<Report>): (r: seq<Item>)
    requires |reports| == |items|
    ensures |r| == |items|
  {
    seq(|items|, i requires 0 <= i < |items| =>
      if items[i].task == "" then items[i] else items[i].(status := Normalized(items[i].status, reports[i])))
  }

  function Refresh(r: Rollout, reports: seq<Report>): Rollout
    requires |reports| == |r.items|
  {
    var items := Polled(r.items, reports);
    Rollout(items, Composed(r.status, items), FailedDevices(items))
  }

  /** Where a device is first listed. */
  function Place(listed: seq<int>, device: int): (i: nat)
    ensures i <= |listed| && (i < |listed| ==> listed[i] == device) && forall j | 0 <= j < i :: listed[j] != device
  {
    if listed == [] || listed[0] == device then 0
    else
      var i := Place(listed[1..], device);
      assert forall j | 1 <= j < i + 1 :: listed[j] == listed[1..][j - 1];
      i + 1
  }

  function RetriedItem(x: Item, o: Outcome): Item {
    x.(status := if o.ok then TaskCreated else SubmitFailed, task := if o.task.Some? then o.task.value else x.task,
       retries := x.retries + 1)
  }

  /** Every item of a listed device takes that device's first answer. */
  function Resubmitted(items: seq<Item>, listed: seq<int>, outcomes: seq<Outcome>): (r: seq<Item>)
    requires |outcomes| == |listed|
    ensures |r| == |items|
  {
    seq(|items|, i requires 0 <= i < |items| =>
      var k := Place(listed, items[i].device);
      if k < |listed| then RetriedItem(items[i], outcomes[k]) else items[i])
  }

  /** The listed devices whose answer was a failure. */
  function Refused(listed: seq<int>, outcomes: seq<Outcome>): (r: seq<int>)
    requires |outcomes| == |listed|
    ensures forall d | d in r :: d in listed
  {
    if listed == [] then []
    else
      var n := |listed| - 1;
      Refused(listed[..n], outcomes[..n]) + if outcomes[n].ok then [] else [listed[n]]
  }

  function Retry(r: Rollout, manifestOk: bool, outcomes: seq<Outcome>): Rollout
    requires |outcomes| == |r.listed|
  {
    if r.listed == [] || !manifestOk then r
    else
      var refused := Refused(r.listed, outcomes);
      Rollout(Resubmitted(r.items, r.listed, outcomes), if refused == [] then Approved else PartialFailed, refused)
  }

  datatype Op =
    | StartNext(manifestOk: bool, outcomes: seq<Outcome>)
    | PauseRun
    | TerminateRun
    | RefreshRun(reports: seq<Report>)
    | RetryFailed(manifestOk: bool, outcomes: seq<Outcome>)

  /** One answer for each device asked about. */
  predicate Fits(r: Rollout, op: Op) {
    match op
    case StartNext(_, outcomes) => |outcomes| == |r.items|
    case RefreshRun(reports) => |reports| == |r.items|
    case RetryFailed(_, outcomes) => |outcomes| == |r.listed|
    case _ => true
  }

  function Apply(r: Rollout, op: Op): Rollout
    requires Fits(r, op)
  {
    match op
    case StartNext(ok, outcomes) => Start(r, ok, outcomes)
    case PauseRun => Pause(r)
    case TerminateRun => Terminate(r)
    case RefreshRun(reports) => Refresh(r, reports)
    case RetryFailed(ok, outcomes) => Retry(r, ok, outcomes)
  }
}
