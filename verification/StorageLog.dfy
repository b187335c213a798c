/** The external flash log: event and cache records, rescanning them, and acknowledging cached ones in order. */
module StorageLog {
  import opened Bytes
  import opened Crc
  import opened Flash

  const EVENT_BASE: nat := 0x01_0000
  const EVENT_END: nat := 0x80_0000
  const CACHE_BASE: nat := 0x80_0000
  const CACHE_END: nat := 0x100_0000
  const DISK_SIZE: nat := 0x100_0000
  const SECTOR: nat := 4096
  const PAGE: nat := 256

  const STORAGE_MAGIC: u32 := 0x5348_4C47
  const STORAGE_VERSION: u16 := 1
  const HEADER: nat := 24
  const MAX_PAYLOAD: nat := 192

  const REC_EVENT: u16 := 1
  const REC_CACHE: u16 := 2

  datatype Record = Record(kind: u16, seqNo: u32, tick: u32, payload: seq<byte>)

  /** A record a task may write. */
  type Rec = r: Record | 0 < |r.payload| <= MAX_PAYLOAD witness Record(1, 1, 0, [0])

  /** The next multiple of four. */
  function Align4(n: nat): (r: nat)
    ensures n <= r <= n + 3
  {
    n + 3 - (n + 3) % 4
  }

  // ---- Records ----

  /** The header words, with the checksum word given. */
  function Header(r: Rec, crc: u32): (ws: seq<u32>)
    ensures |ws| == 6
  {
    [STORAGE_MAGIC, Halves(STORAGE_VERSION, r.kind), r.seqNo, r.tick, Halves(|r.payload|, 0), crc]
  }

  /** Two CRCs mixed: the payload's, and the header's shifted out by one bit. */
  function Mix(header: u32, payload: u32): u32 {
    var shifted := 2 * header % 0x1_0000_0000;
    MixBelow(payload, shifted);
    Xor(payload, shifted)
  }

  lemma {:induction false} MixBelow(a: u32, b: u32)
    ensures Xor(a, b) < 0x1_0000_0000
  {
    Pow2Values();
    XorBelow(a, b, 32);
  }

  function RecCrc(r: Rec): u32
  {
    Mix(Crc32(Words(Header(r, 0))), Crc32(r.payload))
  }

  function RecLen(payloadLen: nat): (r: nat)
    ensures HEADER + payloadLen <= r <= HEADER + payloadLen + 3
  {
    Align4(HEADER + payloadLen)
  }

  function Encoded(r: Rec): (s: seq<byte>)
    ensures |s| == RecLen(|r.payload|)
    ensures HEADER < |s|
  {
    Words(Header(r, RecCrc(r))) + r.payload + Blank(RecLen(|r.payload|) - HEADER - |r.payload|)
  }

  // ---- Scanning ----

  /** A record accepted by the scan, or none: erased, malformed, cut off by the region end, or corrupt. */
  function ParseAt(mem: seq<byte>, at: nat, end: nat, cacheOnly: bool): (r: Option<Record>)
    requires end <= |mem|
    ensures r.Some? ==> |r.value.payload| <= MAX_PAYLOAD && at + RecLen(|r.value.payload|) <= end
  {
    if at + HEADER > end then None
    else
      var ws := ReadWords(mem[at..at + HEADER], 6);
      var version, kind, len := Low(ws[1]), High(ws[1]), Low(ws[4]);
      if ws[0] != STORAGE_MAGIC || version != STORAGE_VERSION || (cacheOnly && kind != REC_CACHE) then None
      else if len > MAX_PAYLOAD || (cacheOnly && len == 0) then None
      else if at + RecLen(len) > end then None
      else
        var payload := mem[at + HEADER..at + HEADER + len];
        if ws[5] != Mix(Crc32(Words(ws[5 := 0])), Crc32(payload)) then None
        else Some(Record(kind, ws[2], ws[3], payload))
  }

  datatype Scanned = Scanned(count: nat, lastSeq: u32, addr: nat)

  function Greater(a: u32, b: u32): u32 {
    if a > b then a else b
  }

  function Scan(mem: seq<byte>, at: nat, end: nat, cacheOnly: bool, lastSeq: u32): (r: Scanned)
    requires at <= end <= |mem|
    ensures at <= r.addr <= end
    decreases end - at
  {
    var p := ParseAt(mem, at, end, cacheOnly);
    if p.None? then Scanned(0, lastSeq, at)
    else
      var r := Scan(mem, at + RecLen(|p.value.payload|), end, cacheOnly, Greater(p.value.seqNo, lastSeq));
      r.(count := r.count + 1)
  }

  /** The same scan, given up after n records. */
  function ScanFirst(mem: seq<byte>, at: nat, end: nat, cacheOnly: bool, lastSeq: u32, n: nat): (r: Scanned)
    requires at <= end <= |mem|
    ensures at <= r.addr <= end && r.count <= n
    decreases n
  {
    var p := ParseAt(mem, at, end, cacheOnly);
    if n == 0 || p.None? then Scanned(0, lastSeq, at)
    else
      var r := ScanFirst(mem, at + RecLen(|p.value.payload|), end, cacheOnly, Greater(p.value.seqNo, lastSeq), n - 1);
      r.(count := r.count + 1)
  }

  // ---- The task's state ----

  datatype Store = Store(mem: seq<byte>, eventAddr: nat, eventCount: nat,
                         cacheRead: nat, cacheWrite: nat, backlog: nat, lastSeq: u32)

  predicate StoreOk(st: Store) {
    && |st.mem| == DISK_SIZE
    && EVENT_BASE <= st.eventAddr <= EVENT_END
    && CACHE_BASE <= st.cacheWrite <= CACHE_END && CACHE_BASE <= st.cacheRead < CACHE_END
  }

  predicate AllErased(mem: seq<byte>, at: nat, n: nat)
    requires at + n <= |mem|
  {
    forall i | at <= i < at + n :: mem[i] == ERASED
  }

  /** The least number of sectors holding n bytes. */
  function SectorsIn(n: nat): (m: nat)
    ensures n <= SECTOR * m < n + SECTOR
  {
    (n + SECTOR - 1) / SECTOR
  }

  /** Bytes in the whole sectors from the one holding `at` up to the end of n bytes there, rounded up to four. */
  function Span(at: nat, n: nat): nat {
    SECTOR * SectorsIn(Align4(at + n) - (at - at % SECTOR))
  }

  /** A record's bytes put in place after erasing the sectors they touch. */
  function PutFresh(mem: seq<byte>, at: nat, d: seq<byte>): (r: seq<byte>)
    requires at + |d| <= |mem|
    ensures |r| == |mem|
  {
    Programmed(Wiped(mem, at - at % SECTOR, Span(at, |d|)), at, d, |d|)
  }

  /** A record's bytes put in place, after erasing the sectors if any of the cells is in use. */
  function Put(mem: seq<byte>, at: nat, d: seq<byte>): (r: seq<byte>)
    requires at + |d| <= |mem|
    ensures |r| == |mem|
  {
    if AllErased(mem, at, |d|) then Programmed(mem, at, d, |d|) else PutFresh(mem, at, d)
  }

  function NextSeq(s: u32): u32 {
    (s + 1) % 0x1_0000_0000
  }

  predicate PayloadOk(payload: seq<byte>) {
    0 < |payload| <= MAX_PAYLOAD
  }

  function WriteEvent(st: Store, kind: u16, payload: seq<byte>, tick: u32): (r: Store)
    requires StoreOk(st)
    ensures StoreOk(r)
  {
    if !PayloadOk(payload) then st
    else
      var d := Encoded(Record(kind, NextSeq(st.lastSeq), tick, payload));
      var at := if st.eventAddr + |d| > EVENT_END then EVENT_BASE else st.eventAddr;
      st.(mem := Put(st.mem, at, d), eventAddr := at + |d|, eventCount := st.eventCount + 1,
          lastSeq := NextSeq(st.lastSeq))
  }

  function WriteCache(st: Store, payload: seq<byte>, tick: u32): (r: Store)
    requires StoreOk(st)
    ensures StoreOk(r)
  {
    if !PayloadOk(payload) then st
    else
      var d := Encoded(Record(REC_CACHE, NextSeq(st.lastSeq), tick, payload));
      var wraps := st.cacheWrite + |d| > CACHE_END;
      var s := if wraps then st.(cacheWrite := CACHE_BASE, cacheRead := CACHE_BASE, backlog := 0) else st;
      s.(mem := Put(s.mem, s.cacheWrite, d), cacheWrite := s.cacheWrite + |d|, backlog := s.backlog + 1,
         lastSeq := NextSeq(s.lastSeq))
  }

  function RescanCache(st: Store): (r: Store)
    requires StoreOk(st)
    ensures StoreOk(r)
  {
    var c := Scan(st.mem, CACHE_BASE, CACHE_END, true, st.lastSeq);
    st.(backlog := c.count, cacheRead := CACHE_BASE, cacheWrite := c.addr, lastSeq := c.lastSeq)
  }

  /** What the task does when it starts: both regions are scanned, events first. */
  function Rescan(st: Store): (r: Store)
    requires StoreOk(st)
    ensures StoreOk(r)
  {
    var e := Scan(st.mem, EVENT_BASE, EVENT_END, false, 0);
    RescanCache(st.(eventCount := e.count, eventAddr := e.addr, lastSeq := e.lastSeq))
  }

  /** Oldest unacknowledged cache record: its sequence number and payload. */
  function Peek(st: Store): (r: (Store, Option<Record>))
    requires StoreOk(st)
    ensures StoreOk(r.0)
  {
    if st.backlog == 0 || st.cacheRead + HEADER > DISK_SIZE then (st, None)
    else
      var ws := ReadWords(st.mem[st.cacheRead..st.cacheRead + HEADER], 6);
      var kind, len := High(ws[1]), Low(ws[4]);
      if ws[0] != STORAGE_MAGIC || kind != REC_CACHE || len == 0 || len > MAX_PAYLOAD then (RescanCache(st), None)
      else if st.cacheRead + RecLen(len) > CACHE_END then (st, None)
      else (st, Some(Record(kind, ws[2], ws[3], st.mem[st.cacheRead + HEADER..st.cacheRead + HEADER + len])))
  }

  /** Drops the oldest cached record if it carries this sequence number. */
  function MarkAck(st: Store, seqNo: u32): (r: (Store, bool))
    requires StoreOk(st)
    ensures StoreOk(r.0)
  {
    if st.backlog == 0 || st.cacheRead + HEADER > DISK_SIZE then (st, false)
    else
      var ws := ReadWords(st.mem[st.cacheRead..st.cacheRead + HEADER], 6);
      if ws[2] != seqNo then (st, false)
      else
        var next := st.cacheRead + RecLen(Low(ws[4]));
        (st.(cacheRead := if next >= CACHE_END then CACHE_BASE else next, backlog := st.backlog - 1), true)
  }
}
