/** The gateway task's reporting: the pending table in place, over the storage task's cache. */
module Gateway {
  import opened Bytes
  import opened StorageLog
  import opened StorageHistory
  import opened StorageTask
  import opened Replay

  /** The frames a timeout scan offers to the cache: overdue live abnormal reports, when the cache is empty. */
  function Offers(t: seq<Pending>, now: u32, backlog: nat): seq<seq<byte>> {
    if t == [] then []
    else
      var p := t[|t| - 1];
      Offers(t[..|t| - 1], now, backlog)
      + if Overdue(p, now) && !p.fromReplay && Abnormal(p.frame) && backlog == 0 then [p.frame] else []
  }

  /** A frame is offered exactly when a live entry with it is overdue, it is abnormal and nothing is cached. */
  lemma {:induction false} OffersAre(t: seq<Pending>, now: u32, backlog: nat, f: seq<byte>)
    ensures f in Offers(t, now, backlog) <==>
            backlog == 0 && Abnormal(f) && exists i :: 0 <= i < |t| && Overdue(t[i], now) && !t[i].fromReplay
                                                      && t[i].frame == f
  {
    hide Abnormal, Overdue;
    if t != [] {
      var n := |t| - 1;
      OffersAre(t[..n], now, backlog, f);
      assert forall i | 0 <= i < n :: t[..n][i] == t[i];
      if Overdue(t[n], now) && !t[n].fromReplay && t[n].frame == f {
        assert 0 <= n < |t|;
      }
    }
  }

  /** The oldest unacknowledged record as the reporting side sees it. */
  lemma CacheIsQueue(st: Store, h: History, named: u32)
    requires Logged(st, h)
    ensures Peek(st) == (st, if h.acked < |h.cached| then Some(Head(h)) else None)
    ensures st.backlog == |h.cached| - h.acked
    ensures MarkAck(st, named).1 <==> h.acked < |h.cached| && h.cached[h.acked].seqNo == named
    ensures Logged(MarkAck(st, named).0, if MarkAck(st, named).1 then h.(acked := h.acked + 1) else h)
  {
    PeekIsHead(st, h);
    AckIsHead(st, h, named);
  }

  lemma {:induction false} RoundDone(g: Gate, now: u32, sent: bool)
    ensures GateOk(g) ==> Round(g, 0, now, sent) == g
  {
  }

  class Reporter {
    const pending: array<Pending>
    const store: Task
    var lastTry: u32
    var reportSeq: u32

    ghost predicate Valid()
      reads this, store, store.disk, store.disk.cells
    {
      pending.Length == PENDING_SIZE && store.Valid() && (pending as object) != (store.disk.cells as object)
    }

    /** The reporting state, given what has been written to the cache. */
    ghost function View(h: History): Gate
      reads this, pending
    {
      Gate(pending[..], h.cached, h.acked, lastTry)
    }

    constructor (s: Task, now: u32)
      requires s.Valid()
      ensures Valid() && store == s && fresh(pending) && reportSeq == 0
      ensures forall h :: View(h) == Gate(seq(PENDING_SIZE, _ => EMPTY), h.cached, h.acked, now)
    {
      store := s;
      pending := new Pending[PENDING_SIZE](_ => EMPTY);
      lastTry, reportSeq := now, 0;
      new;
      assert pending[..] == seq(PENDING_SIZE, _ => EMPTY);
    }

    method Find(q: Query) returns (i: nat)
      requires pending.Length == PENDING_SIZE
      ensures i == First(pending[..], q)
    {
      i := 0;
      while i < pending.Length
        invariant i <= pending.Length && forall j | 0 <= j < i :: !Matches(q, pending[j])
      {
        if Matches(q, pending[i]) {
          return;
        }
        i := i + 1;
      }
    }

    method Count() returns (n: nat)
      ensures n == Actives(pending[..])
    {
      var i := 0;
      n := 0;
      while i < pending.Length
        invariant i <= pending.Length && n == Actives(pending[..i])
      {
        assert pending[..i + 1][..i] == pending[..i];
        if pending[i].active {
          n := n + 1;
        }
        i := i + 1;
      }
      assert pending[..i] == pending[..];
    }

    method Enqueue(p: Pending) returns (ok: bool)
      requires pending.Length == PENDING_SIZE
      modifies pending
      ensures pending[..] == Enqueued(old(pending[..]), p)
      ensures ok <==> First(old(pending[..]), Vacant) < PENDING_SIZE && 0 < |p.frame| <= TX_FRAME_MAX
    {
      var i := Find(Vacant);
      ok := false;
      if i < pending.Length && |p.frame| != 0 && |p.frame| <= TX_FRAME_MAX {
        pending[i] := p;
        ok := true;
      }
    }

    /** Clears overdue entries; abnormal live ones are offered to the cache while nothing is cached. */
    method ScanTimeout(now: u32) returns (offered: seq<seq<byte>>)
      requires pending.Length == PENDING_SIZE
      modifies pending
      ensures pending[..] == Expired(old(pending[..]), now)
      ensures offered == Offers(old(pending[..]), now, store.backlog)
    {
      hide Abnormal;
      ghost var was := pending[..];
      var i := 0;
      offered := [];
      while i < pending.Length
        invariant i <= pending.Length && offered == Offers(was[..i], now, store.backlog)
        invariant forall j | 0 <= j < i :: pending[j] == if Overdue(was[j], now) then EMPTY else was[j]
        invariant forall j | i <= j < pending.Length :: pending[j] == was[j]
      {
        assert was[..i + 1][..i] == was[..i];
        var p := pending[i];
        if p.active && (now - p.sentMs) % 0x1_0000_0000 > ACK_TIMEOUT {
          if !p.fromReplay && Abnormal(p.frame) && store.backlog == 0 {
            offered := offered + [p.frame];
          }
          pending[i] := EMPTY;
        }
        i := i + 1;
      }
      assert was[..i] == was;
    }

    /** An acknowledgement frame: bytes 1 to 4 carry the report's number. */
    method ProcessReportAck(payload: seq<byte>, ghost h: History) returns (ghost h': History)
      requires Valid() && Logged(store.State(), h)
      modifies pending, store, store.disk`fault
      ensures Valid()
      ensures !store.disk.fault ==>
        && Logged(store.State(), h')
        && View(h') == if |payload| < 5 then old(View(h)) else Acked(old(View(h)), ReadU32(payload, 1))
    {
      hide Logged, First, StoreOk;
      h' := h;
      if |payload| < 5 {
        return;
      }
      var i := Find(BySeq(ReadU32(payload, 1)));
      if i == pending.Length {
        return;
      }
      if pending[i].fromReplay {
        CacheIsQueue(store.State(), h, pending[i].cacheSeq);
        var acked := store.MarkCacheAck(pending[i].cacheSeq);
        h' := if acked then h.(acked := h.acked + 1) else h;
      }
      pending[i] := EMPTY;
    }

    /** Numbers, sends and remembers a live report; one not sent or remembered is offered like an overdue one. */
    method SendReport(readings: seq<byte>, now: u32, ghost h: History) returns (sent: bool, offered: seq<seq<byte>>)
      requires Valid() && |readings| == 10 && h.acked <= |h.cached|
      modifies this`reportSeq, pending
      ensures Valid() && reportSeq == NextSeq(old(reportSeq))
      ensures View(h) == Replay.SendReport(old(View(h)), ReportFrame(readings, reportSeq), reportSeq, now, sent)
      ensures var frame := ReportFrame(readings, reportSeq);
              var kept := sent && First(Expired(old(pending[..]), now), Vacant) < PENDING_SIZE;
              offered == Offers(old(pending[..]), now, store.backlog)
                         + if !kept && Abnormal(frame) && store.backlog == 0 then [frame] else []
    {
      hide Abnormal;
      reportSeq := NextSeq(reportSeq);
      var frame := ReportFrame(readings, reportSeq);
      offered := ScanTimeout(now);
      sent := *;
      var kept := false;
      if sent {
        kept := Enqueue(Pending(true, false, reportSeq, 0, frame, now));
      }
      if !kept && Abnormal(frame) && store.backlog == 0 {
        offered := offered + [frame];
      }
    }

    /** One iteration of a replay round, with `tries` left counting this one. */
    method ReplayOne(now: u32, sent: bool, ghost tries: nat, ghost h: History) returns (again: bool, ghost h': History)
      requires Valid() && tries > 0 && (!store.disk.fault ==> Logged(store.State(), h))
      modifies pending, store, store.disk`fault
      ensures Valid() && (old(store.disk.fault) ==> store.disk.fault)
      ensures !store.disk.fault ==>
        && Logged(store.State(), h') && GateOk(View(h')) && GateOk(old(View(h)))
        && Round(old(View(h)), tries, now, sent)
           == if again then Round(View(h'), tries - 1, now, sent) else View(h')
    {
      hide Logged, First, Actives, StoreOk, ReportSeq;
      again, h' := false, h;
      if !store.disk.fault { CacheIsQueue(store.State(), h, 0); }
      var n := Count();
      if n >= PENDING_SIZE {
        return;
      }
      var ok, seqNo, payload := store.PeekCache();
      if !ok {
        return;
      }
      var i := Find(ReplayOf(seqNo));
      if i < pending.Length {
        return;
      }
      var reportSeq := ReportSeq(payload);
      if reportSeq.None? {
        if !store.disk.fault { CacheIsQueue(store.State(), h, seqNo); }
        var acked := store.MarkCacheAck(seqNo);
        return true, if acked then h.(acked := h.acked + 1) else h;
      }
      if !sent {
        return;
      }
      FullIff(pending[..]);
      again := Enqueue(Pending(true, true, reportSeq.value, seqNo, payload, now));
    }

    /** Replays the head of the cache, at most once a second; `sent`: whether the link takes the one frame sent. */
    method TryReplay(now: u32, ghost h: History) returns (sent: bool, ghost h': History)
      requires Valid() && Logged(store.State(), h)
      modifies this`lastTry, pending, store, store.disk`fault
      ensures Valid()
      ensures !store.disk.fault ==>
        Logged(store.State(), h') && View(h') == Replay.TryReplay(old(View(h)), now, sent)
    {
      hide Logged, First, StoreOk, Round;
      h', sent := h, *;
      CacheIsQueue(store.State(), h, 0);
      if store.backlog == 0 {
        return;
      }
      if (now - lastTry) % 0x1_0000_0000 < RETRY_INTERVAL {
        return;
      }
      lastTry := now;
      ghost var start := View(h);
      var i := 0;
      while i < REPLAY_BATCH
        invariant 0 <= i <= REPLAY_BATCH && Valid() && lastTry == now
        invariant !store.disk.fault ==> Logged(store.State(), h')
        invariant !store.disk.fault ==>
          GateOk(View(h')) && Round(start, REPLAY_BATCH, now, sent) == Round(View(h'), REPLAY_BATCH - i, now, sent)
      {
        var again;
        again, h' := ReplayOne(now, sent, REPLAY_BATCH - i, h');
        if !again { return; }
        i := i + 1;
      }
      RoundDone(View(h'), now, sent);
    }
  }
}
