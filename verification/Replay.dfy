/** Sensor reports awaiting acknowledgement, and the replay of cached ones in order. */
module Replay {
  import opened Bytes
  import opened Framing
  import opened StorageLog

  const SENSOR_DATA: byte := 1
  const PENDING_SIZE: nat := 8
  const TX_FRAME_MAX: nat := 96
  const REPLAY_BATCH: nat := 5
  const RETRY_INTERVAL: nat := 1000
  const ACK_TIMEOUT: nat := 1200

  /** A report on its way. `cacheSeq` names the cached record a replayed one came from. */
  datatype Pending = Pending(active: bool, fromReplay: bool, reportSeq: u32, cacheSeq: u32,
                             frame: seq<byte>, sentMs: u32)

  const EMPTY := Pending(false, false, 0, 0, [], 0)

  // ---- The table ----

  /** What a search of the table looks for. */
  datatype Query = Vacant | BySeq(reportSeq: u32) | ReplayOf(cacheSeq: u32)

  predicate Matches(q: Query, p: Pending) {
    match q
    case Vacant => !p.active
    case BySeq(s) => p.active && p.reportSeq == s
    case ReplayOf(c) => p.active && p.fromReplay && p.cacheSeq == c
  }

  /** The first match, or the table's size when there is none. */
  function First(t: seq<Pending>, q: Query): (i: nat)
    ensures i <= |t| && (i < |t| ==> Matches(q, t[i])) && forall j | 0 <= j < i :: !Matches(q, t[j])
  {
    if t == [] then 0
    else if Matches(q, t[0]) then 0
    else
      var i := First(t[1..], q);
      assert forall j | 1 <= j < i + 1 :: t[j] == t[1..][j - 1];
      i + 1
  }

  function Actives(t: seq<Pending>): (n: nat)
    ensures n <= |t|
  {
    if t == [] then 0 else Actives(t[..|t| - 1]) + if t[|t| - 1].active then 1 else 0
  }

  /** The count reaches the table's size exactly when there is no slot left to allocate. */
  lemma {:induction false} FullIff(t: seq<Pending>)
    ensures Actives(t) == |t| <==> First(t, Vacant) == |t|
  {
    if t != [] {
      var s, last := t[..|t| - 1], t[|t| - 1];
      FullIff(s);
      if First(s, Vacant) < |s| { assert t[First(s, Vacant)] == s[First(s, Vacant)]; }
      if First(t, Vacant) == |t| { assert forall j | 0 <= j < |s| :: s[j] == t[j]; }
      if First(t, Vacant) < |s| { assert s[First(t, Vacant)] == t[First(t, Vacant)]; }
    }
  }

  function Enqueued(t: seq<Pending>, p: Pending): (r: seq<Pending>)
    ensures |r| == |t|
  {
    var i := First(t, Vacant);
    if i == |t| || |p.frame| == 0 || |p.frame| > TX_FRAME_MAX then t else t[i := p]
  }

  predicate Overdue(p: Pending, now: u32) {
    p.active && (now - p.sentMs) % 0x1_0000_0000 > ACK_TIMEOUT
  }

  function Expired(t: seq<Pending>, now: u32): (r: seq<Pending>)
    ensures |r| == |t| && forall i | 0 <= i < |t| :: r[i] == if Overdue(t[i], now) then EMPTY else t[i]
  {
    seq(|t|, i requires 0 <= i < |t| => if Overdue(t[i], now) then EMPTY else t[i])
  }

  // ---- Frames ----

  predicate IsSensorFrame(f: seq<byte>) {
    |f| >= 20 && f[0] == HEAD_0 && f[1] == HEAD_1 && f[3] == SENSOR_DATA
  }

  function ReportSeq(f: seq<byte>): Option<u32> {
    if !IsSensorFrame(f) || f[2] < 15 then None else Some(ReadU32(f, 14))
  }

  /** The alarm bit is set, or the sensors are not valid. */
  predicate Abnormal(f: seq<byte>) {
    IsSensorFrame(f) && (f[2] as int - 1) % 0x100 >= 10 && (f[13] / 2 % 2 == 1 || f[13] / 4 % 2 == 0)
  }

  /** Ten bytes of readings followed by the report's number. */
  function ReportFrame(readings: seq<byte>, reportSeq: u32): seq<byte>
    requires |readings| == 10
  {
    Printed(SENSOR_DATA, readings + Word(reportSeq))
  }

  /** The number put into a report is the number read back from its frame, also after it has been cached. */
  lemma ReportCarriesSeq(readings: seq<byte>, reportSeq: u32)
    requires |readings| == 10
    ensures ReportSeq(ReportFrame(readings, reportSeq)) == Some(reportSeq)
    ensures |ReportFrame(readings, reportSeq)| == 20
    ensures Abnormal(ReportFrame(readings, reportSeq)) <==> readings[9] / 2 % 2 == 1 || readings[9] / 4 % 2 == 0
  {
    var f, p := ReportFrame(readings, reportSeq), readings + Word(reportSeq);
    assert f[4..18] == p;
    assert f[14] == p[10] && f[15] == p[11] && f[16] == p[12] && f[17] == p[13];
    WordRead(reportSeq);
    assert ReadU32(f, 14) == ReadU32(Word(reportSeq), 0);
    assert f[13] == p[9] == readings[9];
  }

  // ---- The gateway's reporting state ----

  /** The table, the cached records, how many of those have left the cache, and the time of the last replay. */
  datatype Gate = Gate(table: seq<Pending>, cached: seq<Rec>, acked: nat, lastTry: u32)

  predicate GateOk(g: Gate) {
    |g.table| == PENDING_SIZE && g.acked <= |g.cached|
  }

  predicate HeadIs(g: Gate, cacheSeq: u32)
    requires GateOk(g)
  {
    g.acked < |g.cached| && g.cached[g.acked].seqNo == cacheSeq
  }

  function Dropped(g: Gate, cacheSeq: u32): (r: Gate)
    requires GateOk(g)
    ensures GateOk(r)
  {
    if HeadIs(g, cacheSeq) then g.(acked := g.acked + 1) else g
  }

  function ReplayEntry(r: Rec, reportSeq: u32, now: u32): Pending {
    Pending(true, true, reportSeq, r.seqNo, r.payload, now)
  }

  /** One replay round: `tries` iterations are left; `sent`: the link takes the frame. */
  function Round(g: Gate, tries: nat, now: u32, sent: bool): (r: Gate)
    requires GateOk(g)
    ensures GateOk(r) && r.cached == g.cached && r.lastTry == g.lastTry
    decreases tries
  {
    if tries == 0 || Actives(g.table) >= PENDING_SIZE || g.acked == |g.cached| then g
    else
      var head := g.cached[g.acked];
      if First(g.table, ReplayOf(head.seqNo)) < |g.table| then g
      else
        match ReportSeq(head.payload)
        case None => Round(Dropped(g, head.seqNo), tries - 1, now, sent)
        case Some(s) =>
          if !sent || |head.payload| > TX_FRAME_MAX then g
          else Round(g.(table := Enqueued(g.table, ReplayEntry(head, s, now))), tries - 1, now, sent)
  }

  function TryReplay(g: Gate, now: u32, sent: bool): (r: Gate)
    requires GateOk(g)
    ensures GateOk(r) && r.cached == g.cached
  {
    if g.acked == |g.cached| || (now - g.lastTry) % 0x1_0000_0000 < RETRY_INTERVAL then g
    else Round(g.(lastTry := now), REPLAY_BATCH, now, sent)
  }

  function Acked(g: Gate, reportSeq: u32): (r: Gate)
    requires GateOk(g)
    ensures GateOk(r) && r.cached == g.cached
  {
    var i := First(g.table, BySeq(reportSeq));
    if i == |g.table| then g
    else
      var p := g.table[i];
      (if p.fromReplay then Dropped(g, p.cacheSeq) else g).(table := g.table[i := EMPTY])
  }

  /** A live report: overdue entries go first, then it is sent and remembered if there is room. */
  function SendReport(g: Gate, frame: seq<byte>, reportSeq: u32, now: u32, sent: bool): (r: Gate)
    requires GateOk(g)
    ensures GateOk(r) && r.cached == g.cached && r.acked == g.acked
  {
    var t := Expired(g.table, now);
    g.(table := if sent then Enqueued(t, Pending(true, false, reportSeq, 0, frame, now)) else t)
  }

  datatype Event =
    | Report(frame: seq<byte>, reportSeq: u32, now: u32, sent: bool)
    | ReportAck(reportSeq: u32)
    | Replay(now: u32, sent: bool)
    | Cached(rec: Rec)

  function Step(g: Gate, e: Event): (r: Gate)
    requires GateOk(g)
    ensures GateOk(r)
  {
    match e
    case Report(frame, s, now, sent) => SendReport(g, frame, s, now, sent)
    case ReportAck(s) => Acked(g, s)
    case Replay(now, sent) => TryReplay(g, now, sent)
    case Cached(r) => g.(cached := g.cached + [r])
  }

  // ---- Times, in terms of clocks that do not wrap ----

  /** An entry is overdue once more than 1200 milliseconds have passed, across tick wrap-around. */
  lemma OverdueMeans(p: Pending, sent: nat, now: nat)
    requires p.active && p.sentMs == sent % 0x1_0000_0000 && sent <= now < sent + 0x1_0000_0000
    ensures Overdue(p, now % 0x1_0000_0000) <==> now > sent + 1200
  {
    Elapsed(sent, now);
  }

  lemma Elapsed(t: nat, now: nat)
    requires t <= now < t + 0x1_0000_0000
    ensures (now % 0x1_0000_0000 - t % 0x1_0000_0000) % 0x1_0000_0000 == now - t
  {
    var m := 0x1_0000_0000;
    var q := now / m - t / m;
    assert now - t == q * m + (now % m - t % m);
    Wrapped(now % m - t % m, q, now - t);
  }

  lemma Wrapped(x: int, q: int, d: nat)
    requires d == q * 0x1_0000_0000 + x && d < 0x1_0000_0000
    ensures x % 0x1_0000_0000 == d
  {
  }

  /** Within a second of the last round nothing is replayed; after it a round is run. */
  lemma {:induction false} ReplayPaced(g: Gate, last: nat, now: nat, sent: bool)
    requires GateOk(g) && g.acked < |g.cached|
    requires g.lastTry == last % 0x1_0000_0000 && last <= now < last + 0x1_0000_0000
    ensures TryReplay(g, now % 0x1_0000_0000, sent)
         == if now < last + 1000 then g
            else Round(g.(lastTry := now % 0x1_0000_0000), 5, now % 0x1_0000_0000, sent)
  {
    hide Round;
    Elapsed(last, now);
  }

  // ---- A report and its acknowledgement ----

  /** Of all frames exactly the sensor reports carry a number: the four bytes behind their ten bytes of readings. */
  lemma ReportSeqIff(kind: byte, payload: seq<byte>)
    requires |payload| <= 254
    ensures ReportSeq(Printed(kind, payload)).Some? <==> kind == SENSOR_DATA && |payload| >= 14
    ensures ReportSeq(Printed(kind, payload)).Some? ==>
              ReportSeq(Printed(kind, payload)).value == ReadU32(payload[10..14], 0)
  {
    PrintedParts(kind, payload);
    var f := Printed(kind, payload);
    if |payload| >= 14 {
      assert payload[10..14] == f[4..|f| - 2][10..14] == f[14..18];
    }
  }

  /**
   * Also on bytes that are no printed frame the announced length decides: a number needs 15 bytes, the state bits 11.
   * An announced length of 0 wraps around and passes for the state bits.
   */
  lemma AnnouncedLengths(f: seq<byte>)
    requires |f| >= 20 && f[0] == 0xAA && f[1] == 0x55 && f[3] == 1
    ensures ReportSeq(f) == if f[2] >= 15 then Some(ReadU32(f, 14)) else None
    ensures Abnormal(f) <==> (f[2] >= 11 || f[2] == 0) && (f[13] / 2 % 2 == 1 || f[13] / 4 % 2 == 0)
  {
  }

  /** An acknowledgement clears the first entry that carries its number, and no other, whether live or replayed. */
  lemma AckClears(g: Gate, reportSeq: u32, i: nat)
    requires GateOk(g) && i < |g.table| && g.table[i].active && g.table[i].reportSeq == reportSeq
    requires forall j | 0 <= j < i :: !(g.table[j].active && g.table[j].reportSeq == reportSeq)
    ensures var t := Acked(g, reportSeq).table;
            && !t[i].active && forall j | 0 <= j < |t| && j != i :: t[j] == g.table[j]
  {
    hide HeadIs;
    assert Matches(BySeq(reportSeq), g.table[i]);
    assert First(g.table, BySeq(reportSeq)) == i;
  }

  /** A number nobody waits for changes nothing. */
  lemma StrayAckIgnored(g: Gate, reportSeq: u32)
    requires GateOk(g) && forall j | 0 <= j < |g.table| :: !(g.table[j].active && g.table[j].reportSeq == reportSeq)
    ensures Acked(g, reportSeq) == g
  {
  }

  /** A live report that was sent and found room takes a free entry until its acknowledgement, which frees it again. */
  lemma SentUntilAcked(g: Gate, frame: seq<byte>, reportSeq: u32, now: u32)
    requires GateOk(g) && 0 < |frame| <= 96
    requires forall j | 0 <= j < |g.table| :: g.table[j].active ==> g.table[j].reportSeq != reportSeq
    requires exists j :: 0 <= j < |g.table| && !Expired(g.table, now)[j].active
    ensures var r := SendReport(g, frame, reportSeq, now, true);
            var i := First(r.table, BySeq(reportSeq));
            && i < |g.table| && r.table[i] == Pending(true, false, reportSeq, 0, frame, now)
            && !Expired(g.table, now)[i].active
            && Acked(r, reportSeq).table == Expired(g.table, now)[i := EMPTY]
            && Acked(r, reportSeq).acked == g.acked
  {
    var t, r := Expired(g.table, now), SendReport(g, frame, reportSeq, now, true);
    var j :| 0 <= j < |t| && !t[j].active;
    assert Matches(Vacant, t[j]);
    var k := First(t, Vacant);
    assert r.table == t[k := Pending(true, false, reportSeq, 0, frame, now)];
    assert Matches(BySeq(reportSeq), r.table[k]);
    assert forall j | 0 <= j < k :: !Matches(BySeq(reportSeq), r.table[j]);
  }

  /** A report not sent, without room, or with a frame no entry can hold, is not kept: only overdue entries go. */
  lemma NotKept(g: Gate, frame: seq<byte>, reportSeq: u32, now: u32, sent: bool)
    requires GateOk(g)
    requires !sent || !(0 < |frame| <= 96) || forall j | 0 <= j < |g.table| :: Expired(g.table, now)[j].active
    ensures SendReport(g, frame, reportSeq, now, sent) == g.(table := Expired(g.table, now))
  {
  }

  // ---- What every step keeps ----

  predicate Replaying(p: Pending) {
    p.active && p.fromReplay
  }

  /** The entry stands for the cache's oldest record. */
  predicate NamesHead(g: Gate, p: Pending)
    requires GateOk(g)
  {
    HeadIs(g, p.cacheSeq) && ReportSeq(g.cached[g.acked].payload) == Some(p.reportSeq)
  }

  ghost predicate Ascending(rs: seq<Rec>) {
    forall i, j | 0 <= i < j < |rs| :: rs[i].seqNo < rs[j].seqNo
  }

  /** At most one replayed report is on its way, and it is the oldest record in the cache. */
  ghost predicate Guarded(g: Gate) {
    && GateOk(g) && Ascending(g.cached)
    && (forall i | 0 <= i < |g.table| && Replaying(g.table[i]) :: NamesHead(g, g.table[i]))
    && (forall i, j | 0 <= i < j < |g.table| :: !(Replaying(g.table[i]) && Replaying(g.table[j])))
  }

  /** New records come with higher numbers. */
  ghost predicate Orderly(g: Gate, e: Event) {
    e.Cached? ==> Ascending(g.cached + [e.rec])
  }

  /** With nothing of the head in flight there is nothing replayed in flight at all. */
  lemma IdleTable(g: Gate)
    requires Guarded(g)
    requires g.acked == |g.cached| || First(g.table, ReplayOf(g.cached[g.acked].seqNo)) == |g.table|
    ensures forall i | 0 <= i < |g.table| :: !Replaying(g.table[i])
  {
    forall i | 0 <= i < |g.table| ensures !Replaying(g.table[i]) {
      assert Replaying(g.table[i]) ==> NamesHead(g, g.table[i]);
      assert g.acked < |g.cached| ==> !Matches(ReplayOf(g.cached[g.acked].seqNo), g.table[i]);
    }
  }

  lemma EnqueueKeeps(g: Gate, reportSeq: u32, now: u32)
    requires Guarded(g) && g.acked < |g.cached| && ReportSeq(g.cached[g.acked].payload) == Some(reportSeq)
    requires First(g.table, ReplayOf(g.cached[g.acked].seqNo)) == |g.table|
    ensures Guarded(g.(table := Enqueued(g.table, ReplayEntry(g.cached[g.acked], reportSeq, now))))
  {
    hide ReportSeq, First;
    IdleTable(g);
  }

  lemma DropKeeps(g: Gate, cacheSeq: u32)
    requires Guarded(g) && g.acked < |g.cached| && First(g.table, ReplayOf(g.cached[g.acked].seqNo)) == |g.table|
    ensures Guarded(Dropped(g, cacheSeq))
  {
    hide ReportSeq, First;
    IdleTable(g);
  }

  /** A round leaves the invariant and drops only records that are no sensor reports. */
  lemma {:induction false} RoundKeeps(g: Gate, tries: nat, now: u32, sent: bool)
    requires Guarded(g)
    ensures var r := Round(g, tries, now, sent);
            && Guarded(r) && g.acked <= r.acked
            && forall k | g.acked <= k < r.acked :: ReportSeq(g.cached[k].payload) == None
    decreases tries
  {
    hide Ascending, NamesHead, ReportSeq, First, Enqueued;
    if tries == 0 || Actives(g.table) >= PENDING_SIZE || g.acked == |g.cached| {
    } else {
      var head := g.cached[g.acked];
      if First(g.table, ReplayOf(head.seqNo)) == |g.table| {
        match ReportSeq(head.payload) {
          case None =>
            DropKeeps(g, head.seqNo);
            RoundKeeps(Dropped(g, head.seqNo), tries - 1, now, sent);
          case Some(s) =>
            if sent && |head.payload| <= TX_FRAME_MAX {
              EnqueueKeeps(g, s, now);
              RoundKeeps(g.(table := Enqueued(g.table, ReplayEntry(head, s, now))), tries - 1, now, sent);
            }
        }
      }
    }
  }

  lemma {:induction false} EnqueuedFound(t: seq<Pending>, p: Pending)
    requires First(t, Vacant) < |t| && 0 < |p.frame| <= TX_FRAME_MAX && Replaying(p)
    ensures First(Enqueued(t, p), ReplayOf(p.cacheSeq)) < |t|
  {
    var i, r := First(t, Vacant), Enqueued(t, p);
    assert Matches(ReplayOf(p.cacheSeq), r[i]);
  }

  /** After a round over a working link the head is in flight, unless there is no head, no room, or only strays. */
  lemma {:induction false} RoundSends(g: Gate, tries: nat, now: u32)
    requires Guarded(g)
    ensures var r := Round(g, tries, now, true);
            || r.acked == |r.cached| || Actives(r.table) >= PENDING_SIZE || r.acked == g.acked + tries
            || First(r.table, ReplayOf(r.cached[r.acked].seqNo)) < |r.table|
            || |r.cached[r.acked].payload| > TX_FRAME_MAX
    decreases tries
  {
    hide Ascending, NamesHead, ReportSeq, First, Enqueued;
    if tries > 0 && Actives(g.table) < PENDING_SIZE && g.acked < |g.cached| {
      var head := g.cached[g.acked];
      if First(g.table, ReplayOf(head.seqNo)) == |g.table| {
        match ReportSeq(head.payload) {
          case None =>
            DropKeeps(g, head.seqNo);
            RoundSends(Dropped(g, head.seqNo), tries - 1, now);
          case Some(s) =>
            if |head.payload| <= TX_FRAME_MAX {
              FullIff(g.table);
              EnqueuedFound(g.table, ReplayEntry(head, s, now));
              InFlightRests(g.(table := Enqueued(g.table, ReplayEntry(head, s, now))), tries - 1, now, true);
            }
        }
      }
    }
  }

  lemma {:induction false} InFlightRests(g: Gate, tries: nat, now: u32, sent: bool)
    requires GateOk(g) && g.acked < |g.cached|
    requires First(g.table, ReplayOf(g.cached[g.acked].seqNo)) < |g.table|
    ensures Round(g, tries, now, sent) == g
  {
  }

  /** What a round puts in flight: the head's own bytes, under its own numbers, and nothing else moves. */
  lemma {:induction false} RoundPuts(g: Gate, tries: nat, now: u32)
    requires GateOk(g) && tries > 0 && g.acked < |g.cached| && First(g.table, Vacant) < PENDING_SIZE
    requires var head := g.cached[g.acked];
             && First(g.table, ReplayOf(head.seqNo)) == |g.table|
             && ReportSeq(head.payload).Some? && |head.payload| <= TX_FRAME_MAX
    ensures var head, free := g.cached[g.acked], First(g.table, Vacant);
            Round(g, tries, now, true) == g.(table :=
              g.table[free := Pending(true, true, ReportSeq(head.payload).value, head.seqNo, head.payload, now)])
  {
    hide ReportSeq, First;
    var head := g.cached[g.acked];
    var p := ReplayEntry(head, ReportSeq(head.payload).value, now);
    FullIff(g.table);
    EnqueuedFound(g.table, p);
    InFlightRests(g.(table := Enqueued(g.table, p)), tries - 1, now, true);
  }

  /** The first entry with this number is the replayed one: exactly then the acknowledgement frees the head. */
  lemma AckKeeps(g: Gate, reportSeq: u32)
    requires Guarded(g)
    ensures var i, r := First(g.table, BySeq(reportSeq)), Acked(g, reportSeq);
            && Guarded(r)
            && r.acked == g.acked + (if i < |g.table| && g.table[i].fromReplay then 1 else 0)
            && (r.acked > g.acked ==> ReportSeq(g.cached[g.acked].payload) == Some(reportSeq))
  {
    var i, r := First(g.table, BySeq(reportSeq)), Acked(g, reportSeq);
    if i < |g.table| {
      assert forall j | 0 <= j < |g.table| :: r.table[j] == if j == i then EMPTY else g.table[j];
      if g.table[i].fromReplay {
        assert NamesHead(g, g.table[i]);
        assert forall j | 0 <= j < |g.table| :: !Replaying(r.table[j]);
      }
    }
  }

  lemma StepKeeps(g: Gate, e: Event)
    requires Guarded(g) && Orderly(g, e)
    ensures var r := Step(g, e);
            && Guarded(r) && g.cached <= r.cached && g.acked <= r.acked <= |g.cached|
            && forall k | g.acked <= k < r.acked ::
                 var s := ReportSeq(g.cached[k].payload);
                 if e.Replay? then s == None else s.Some? && e == ReportAck(s.value) && r.acked == k + 1
  {
    match e
    case Report(_, _, _, _) =>
    case ReportAck(s) => AckKeeps(g, s);
    case Replay(now, sent) => RoundKeeps(g.(lastTry := now), REPLAY_BATCH, now, sent);
    case Cached(_) =>
  }

  // ---- Whole runs ----

  function Steps(g: Gate, es: seq<Event>): (r: Gate)
    requires GateOk(g)
    ensures GateOk(r)
    decreases |es|
  {
    if es == [] then g else Step(Steps(g, es[..|es| - 1]), es[|es| - 1])
  }

  ghost predicate AllOrderly(g: Gate, es: seq<Event>)
    requires GateOk(g)
  {
    forall i | 0 <= i < |es| :: Orderly(Steps(g, es[..i]), es[i])
  }

  /** Record k leaves in the step e from g to r, and only an acknowledgement of its own number can do that. */
  predicate LeavesBy(g: Gate, e: Event, r: Gate, k: nat) {
    && g.acked <= k < r.acked <= |r.cached|
    && match ReportSeq(r.cached[k].payload)
       case Some(s) => e == ReportAck(s) && g.acked == k && r.acked == k + 1
       case None => e.Replay?
  }

  ghost predicate LeftAt(g: Gate, es: seq<Event>, k: nat, i: nat)
    requires GateOk(g)
  {
    i < |es| && LeavesBy(Steps(g, es[..i]), es[i], Steps(g, es[..i + 1]), k)
  }

  lemma StepLeaves(g: Gate, e: Event, k: nat)
    requires Guarded(g) && Orderly(g, e) && g.acked <= k < Step(g, e).acked
    ensures LeavesBy(g, e, Step(g, e), k)
  {
    hide Step, ReportSeq;
    StepKeeps(g, e);
    var first, left := ReportSeq(g.cached[g.acked].payload), ReportSeq(g.cached[k].payload);
    assert g.cached[k] == Step(g, e).cached[k];
  }

  lemma StepsPrefix(g: Gate, es: seq<Event>, i: nat)
    requires GateOk(g) && i <= |es| && es != [] && AllOrderly(g, es)
    ensures AllOrderly(g, es[..|es| - 1])
    ensures i < |es| ==> es[..|es| - 1][..i] == es[..i]
  {
    var init := es[..|es| - 1];
    forall j | 0 <= j < |init| ensures Orderly(Steps(g, init[..j]), init[j]) {
      assert init[..j] == es[..j];
    }
  }

  lemma LeftLater(g: Gate, es: seq<Event>, k: nat, i: nat)
    requires GateOk(g) && es != [] && LeftAt(g, es[..|es| - 1], k, i)
    ensures LeftAt(g, es, k, i)
  {
    hide Steps, LeavesBy;
    assert es[..|es| - 1][..i] == es[..i] && es[..|es| - 1][..i + 1] == es[..i + 1];
  }

  lemma {:induction false} LeftNow(g: Gate, init: seq<Event>, e: Event, k: nat)
    requires GateOk(g) && Guarded(Steps(g, init)) && Orderly(Steps(g, init), e)
    requires Steps(g, init).acked <= k < Step(Steps(g, init), e).acked
    ensures LeftAt(g, init + [e], k, |init|)
  {
    hide Step, LeavesBy, Guarded, Orderly;
    var es := init + [e];
    StepLeaves(Steps(g, init), e, k);
    assert es[..|init|] == init && es[..|init| + 1] == es;
  }

  /**
   * In every run at most one replayed report is in flight, and it is the head of the cache. Cached records leave
   * in order; each sensor report leaves at the moment an acknowledgement carrying its own number arrives.
   */
  lemma {:induction false} DeparturesAcknowledged(g: Gate, es: seq<Event>, k: nat)
    requires Guarded(g) && AllOrderly(g, es)
    ensures var r := Steps(g, es);
            && Guarded(r) && g.cached <= r.cached && g.acked <= r.acked
            && (g.acked <= k < r.acked ==> exists i :: LeftAt(g, es, k, i))
    decreases |es|
  {
    hide Step, LeftAt, Ascending, NamesHead;
    if es != [] {
      var init := es[..|es| - 1];
      StepsPrefix(g, es, |init|);
      DeparturesAcknowledged(g, init, k);
      StepKeeps(Steps(g, init), es[|init|]);
      if g.acked <= k < Steps(g, init).acked {
        var i: nat :| LeftAt(g, init, k, i);
        LeftLater(g, es, k, i);
      } else if g.acked <= k < Steps(g, es).acked {
        assert es == init + [es[|init|]];
        LeftNow(g, init, es[|init|], k);
      }
    }
  }
}
