/** The storage task and the gateway's reporting side by side: cached reports leave in order, none unacknowledged. */
module Uplink {
  import opened Bytes
  import opened StorageLog
  import opened StorageHistory
  import Replay

  // ---- Numbers in the cache ascend ----

  lemma {:induction false} HighestCovers(last: u32, rs: seq<Rec>, i: nat)
    requires i < |rs|
    ensures rs[i].seqNo <= Highest(last, rs)
    decreases |rs|
  {
    HighestGrows(last, Greater(rs[0].seqNo, last), rs[1..]);
    if i == 0 {
      HighestGrows(0, Greater(rs[0].seqNo, last), rs[1..]);
    } else {
      HighestCovers(Greater(rs[0].seqNo, last), rs[1..], i - 1);
    }
  }

  /** The next record's number exceeds every cached one. */
  lemma NextExceeds(st: Store, h: History, payload: seq<byte>, tick: u32)
    requires Logged(st, h) && PayloadOk(payload)
    ensures forall i | 0 <= i < |h.cached| :: h.cached[i].seqNo < CacheRec(st, payload, tick).seqNo
  {
    hide Layout, Encoded, Highest;
    SeqBounded(st, h);
    forall i | 0 <= i < |h.cached| ensures h.cached[i].seqNo < CacheRec(st, payload, tick).seqNo {
      HighestCovers(Highest(0, h.events), h.cached, i);
    }
  }

  lemma OpAscends(st: Store, h: History, op: Op)
    requires Logged(st, h) && Replay.Ascending(h.cached)
    ensures Replay.Ascending(Extended(st, h, op).cached)
  {
    hide Logged;
    if op.LogCache? && PayloadOk(op.payload) { NextExceeds(st, h, op.payload, op.tick); }
  }

  /** Whatever the storage task does before a region wraps, the cached records carry ascending numbers. */
  lemma {:induction false} RunAscends(st: Store, h: History, ops: seq<Op>)
    requires Logged(st, h) && AllFirstRound(st, ops) && Replay.Ascending(h.cached)
    ensures Replay.Ascending(HistoryOf(st, h, ops).cached)
    decreases |ops|
  {
    hide Holds, Layout, Highest, Extended, Perform, FirstRound;
    if ops != [] {
      var init := ops[..|ops| - 1];
      RunAscends(st, h, init);
      RunLogged(st, h, init);
      OpAscends(PerformAll(st, init), HistoryOf(st, h, init), ops[|init|]);
    }
  }

  // ---- Both sides in one state ----

  type WriteOp = op: Op | op.LogEvent? || op.LogCache? witness LogCache([], 0)

  type LinkEvent = e: Replay.Event | !e.Cached? witness Replay.ReportAck(0)

  datatype Action = Link(event: LinkEvent) | Write(op: WriteOp)

  /** The storage task, what it has written, and the gateway's reporting state. */
  datatype Uplink = Uplink(store: Store, log: History, gate: Replay.Gate)

  predicate UplinkOk(u: Uplink) {
    && StoreOk(u.store) && Replay.GateOk(u.gate)
    && u.gate.cached == u.log.cached && u.gate.acked == u.log.acked
  }

  /** The gateway sees exactly the cache the storage task holds. */
  ghost predicate Coupled(u: Uplink) {
    UplinkOk(u) && Logged(u.store, u.log) && Replay.Guarded(u.gate)
  }

  /** The storage task after the heads before position `upTo` have been acknowledged to it one by one. */
  function PassedOn(st: Store, h: History, upTo: nat): (r: Store)
    requires StoreOk(st) && upTo <= |h.cached|
    ensures StoreOk(r)
    decreases upTo - h.acked
  {
    if h.acked >= upTo then st
    else PassedOn(MarkAck(st, Head(h).seqNo).0, h.(acked := h.acked + 1), upTo)
  }

  /** What the gateway notices of an action. */
  function Noticed(u: Uplink, a: Action): seq<Replay.Event> {
    match a
    case Link(e) => [e]
    case Write(op) =>
      if op.LogCache? && PayloadOk(op.payload) then [Replay.Cached(CacheRec(u.store, op.payload, op.tick))] else []
  }

  function Act(u: Uplink, a: Action): (r: Uplink)
    requires UplinkOk(u)
    ensures UplinkOk(r)
    ensures r.gate == if Noticed(u, a) == [] then u.gate else Replay.Step(u.gate, Noticed(u, a)[0])
  {
    match a
    case Link(e) =>
      var g := Replay.Step(u.gate, e);
      Uplink(PassedOn(u.store, u.log, g.acked), u.log.(acked := g.acked), g)
    case Write(op) =>
      var h := Extended(u.store, u.log, op);
      Uplink(Perform(u.store, op), h, u.gate.(cached := h.cached))
  }

  lemma {:induction false} PassedOnLogged(st: Store, h: History, upTo: nat)
    requires Logged(st, h) && h.acked <= upTo <= |h.cached|
    ensures Logged(PassedOn(st, h, upTo), h.(acked := upTo))
    decreases upTo - h.acked
  {
    hide Holds, Layout, Highest, ReadAddr, MarkAck;
    if h.acked < upTo {
      AckIsHead(st, h, Head(h).seqNo);
      PassedOnLogged(MarkAck(st, Head(h).seqNo).0, h.(acked := h.acked + 1), upTo);
    }
  }

  predicate Allowed(u: Uplink, a: Action)
    requires UplinkOk(u)
  {
    a.Write? ==> FirstRound(u.store, a.op)
  }

  /** One action keeps both sides coupled, and what the gateway notices of it is orderly. */
  lemma ActKeeps(u: Uplink, a: Action)
    requires Coupled(u) && Allowed(u, a)
    ensures Coupled(Act(u, a))
    ensures Noticed(u, a) != [] ==> Replay.Orderly(u.gate, Noticed(u, a)[0])
  {
    hide Logged, Replay.Step, Replay.NamesHead;
    match a
    case Link(e) =>
      Replay.StepKeeps(u.gate, e);
      PassedOnLogged(u.store, u.log, Replay.Step(u.gate, e).acked);
    case Write(op) =>
      OpLogged(u.store, u.log, op);
      OpAscends(u.store, u.log, op);
      if Noticed(u, a) != [] { Replay.StepKeeps(u.gate, Noticed(u, a)[0]); }
  }

  // ---- Whole runs ----

  function ActAll(u: Uplink, acts: seq<Action>): (r: Uplink)
    requires UplinkOk(u)
    ensures UplinkOk(r)
    decreases |acts|
  {
    if acts == [] then u else Act(ActAll(u, acts[..|acts| - 1]), acts[|acts| - 1])
  }

  predicate AllAllowed(u: Uplink, acts: seq<Action>)
    requires UplinkOk(u)
    decreases |acts|
  {
    acts == [] || (AllAllowed(u, acts[..|acts| - 1]) && Allowed(ActAll(u, acts[..|acts| - 1]), acts[|acts| - 1]))
  }

  /** What the gateway notices along the run. */
  function AllNoticed(u: Uplink, acts: seq<Action>): seq<Replay.Event>
    requires UplinkOk(u)
    decreases |acts|
  {
    if acts == [] then []
    else AllNoticed(u, acts[..|acts| - 1]) + Noticed(ActAll(u, acts[..|acts| - 1]), acts[|acts| - 1])
  }

  lemma {:induction false} OrderlyMore(g: Replay.Gate, es: seq<Replay.Event>, e: Replay.Event)
    requires Replay.GateOk(g) && Replay.AllOrderly(g, es) && Replay.Orderly(Replay.Steps(g, es), e)
    ensures Replay.AllOrderly(g, es + [e]) && Replay.Steps(g, es + [e]) == Replay.Step(Replay.Steps(g, es), e)
  {
    hide Replay.Step, Replay.Orderly;
    var all := es + [e];
    assert all[..|es|] == es;
    forall i | 0 <= i < |all| ensures Replay.Orderly(Replay.Steps(g, all[..i]), all[i]) {
      if i < |es| { assert all[..i] == es[..i]; }
    }
  }

  /** Both sides stay coupled along every run, and the gateway's part of it is an orderly run of its own. */
  lemma {:induction false} RunCoupled(u: Uplink, acts: seq<Action>)
    requires Coupled(u) && AllAllowed(u, acts)
    ensures Coupled(ActAll(u, acts))
    ensures Replay.AllOrderly(u.gate, AllNoticed(u, acts))
    ensures Replay.Steps(u.gate, AllNoticed(u, acts)) == ActAll(u, acts).gate
    decreases |acts|
  {
    hide Logged, Replay.Guarded, Replay.Orderly, Replay.Step, Noticed, Act, Allowed, Replay.AllOrderly;
    if acts == [] {
      NothingNoticed(u);
    } else {
      var init, a := acts[..|acts| - 1], acts[|acts| - 1];
      var before := ActAll(u, init);
      RunCoupled(u, init);
      ActKeeps(before, a);
      NoticedOne(before, a);
      if Noticed(before, a) == [] {
        assert AllNoticed(u, acts) == AllNoticed(u, init);
      } else {
        OrderlyMore(u.gate, AllNoticed(u, init), Noticed(before, a)[0]);
      }
    }
  }

  lemma {:induction false} NothingNoticed(u: Uplink)
    requires UplinkOk(u)
    ensures Replay.AllOrderly(u.gate, []) && Replay.Steps(u.gate, []) == u.gate
  {
  }

  lemma NoticedOne(u: Uplink, a: Action)
    requires UplinkOk(u)
    ensures var n := Noticed(u, a); n == [] || n == [n[0]]
  {
  }

  /**
   * Along every run of both tasks before a region wraps the gateway holds the storage task's cache; cached records
   * leave it in order, a sensor report only at the moment an acknowledgement carrying its own number arrives.
   */
  lemma {:induction false} CachedReportsAcknowledged(u: Uplink, acts: seq<Action>, k: nat)
    requires Coupled(u) && AllAllowed(u, acts)
    ensures var r := ActAll(u, acts);
            && Coupled(r) && u.log.cached <= r.log.cached && u.log.acked <= r.log.acked
            && r.store.backlog == |r.log.cached| - r.log.acked
            && (u.log.acked <= k < r.log.acked ==>
                  exists i :: Replay.LeftAt(u.gate, AllNoticed(u, acts), k, i))
  {
    hide Replay.Steps, ActAll, AllAllowed, AllNoticed, Replay.AllOrderly, Replay.LeftAt, Holds, Layout, Highest;
    RunCoupled(u, acts);
    Replay.DeparturesAcknowledged(u.gate, AllNoticed(u, acts), k);
  }

  /** Switched on: the storage task rescans flash, the gateway starts with an empty table. */
  function Rebooted(u: Uplink, now: u32): (r: Uplink)
    requires UplinkOk(u)
    ensures UplinkOk(r)
  {
    Uplink(Rescan(u.store), u.log.(acked := 0),
           Replay.Gate(Fill(Replay.PENDING_SIZE, Replay.EMPTY), u.log.cached, 0, now))
  }

  lemma RebootCouples(u: Uplink, now: u32)
    requires Coupled(u)
    ensures Coupled(Rebooted(u, now))
  {
    hide Holds, Layout, Highest, Rescan;
    RescanReproduces(u.store, u.log);
  }

  /** The first boot of a device whose log is erased, and every boot after any run of the storage task. */
  lemma {:induction false} BootCouples(mem: seq<byte>, ops: seq<Op>, now: u32)
    requires |mem| == DISK_SIZE && forall i | EVENT_BASE <= i < CACHE_END :: mem[i] == ERASED
    requires AllFirstRound(Store(mem, EVENT_BASE, 0, CACHE_BASE, CACHE_BASE, 0, 0), ops)
    ensures var st, h := Store(mem, EVENT_BASE, 0, CACHE_BASE, CACHE_BASE, 0, 0), History([], [], 0);
            var gate := Replay.Gate(Fill(Replay.PENDING_SIZE, Replay.EMPTY), HistoryOf(st, h, ops).cached, 0, now);
            Coupled(Uplink(Rescan(PerformAll(st, ops)), HistoryOf(st, h, ops).(acked := 0), gate))
  {
    hide Holds, Layout, Highest, Rescan, PerformAll, HistoryOf, AllFirstRound;
    var st, h := Store(mem, EVENT_BASE, 0, CACHE_BASE, CACHE_BASE, 0, 0), History([], [], 0);
    FreshLog(mem);
    RunLogged(st, h, ops);
    RunAscends(st, h, ops);
    RescanReproduces(PerformAll(st, ops), HistoryOf(st, h, ops));
  }
}
