/** The external flash driver and the storage task: page-split writes, sector erases, scans and acknowledgements. */
module StorageTask {
  import opened Bytes
  import opened Crc
  import opened Flash
  import opened StorageLog

  /** What the driver accepts for one page program: non-empty, inside one page, inside the chip. */
  predicate PageRule(at: nat, n: nat) {
    0 < n <= PAGE && at % PAGE + n <= PAGE && at + n <= DISK_SIZE
  }

  /** The external NOR chip behind its driver. A transfer may fail; `fault` remembers that one did. */
  class Disk {
    const cells: array<byte>
    ghost var fault: bool

    predicate Valid() {
      cells.Length == DISK_SIZE
    }

    constructor (image: seq<byte>)
      requires |image| == DISK_SIZE
      ensures Valid() && fresh(cells) && cells[..] == image && !fault
    {
      cells := new byte[DISK_SIZE](i requires 0 <= i < DISK_SIZE => image[i]);
      fault := false;
      new;
      assert cells[..] == image;
    }

    method Read(at: nat, n: nat) returns (ok: bool, data: seq<byte>)
      requires Valid()
      modifies this`fault
      ensures old(fault) ==> fault
      ensures ok ==> at + n <= DISK_SIZE && data == cells[at..at + n]
      ensures ok || fault || at + n > DISK_SIZE
    {
      ok := *;
      fault := fault || !ok;
      data := [];
      if at + n > DISK_SIZE {
        ok := false;
      }
      if ok {
        data := cells[at..at + n];
      }
    }

    /** One page program; on a failed transfer only the first `done` bytes may have arrived. */
    method PageProgram(at: nat, d: seq<byte>) returns (ok: bool, ghost done: nat)
      requires Valid()
      modifies this`fault, cells
      ensures done <= |d| && (ok ==> done == |d| && PageRule(at, |d|))
      ensures cells[..] == Programmed(old(cells[..]), at, d, done)
      ensures old(fault) ==> fault
      ensures ok || fault || !PageRule(at, |d|)
    {
      done := 0;
      assert cells[..] == Programmed(cells[..], at, d, 0);
      if |d| == 0 || |d| > PAGE || at % PAGE + |d| > PAGE || at + |d| > DISK_SIZE {
        return false, 0;
      }
      ghost var was := cells[..];
      var i := 0;
      while i < |d|
        invariant i <= |d| && done == i && fault == old(fault)
        invariant cells[..] == Programmed(was, at, d, i)
      {
        ok := *;
        if !ok {
          fault := true;
          return;
        }
        cells[at + i] := And(cells[at + i], d[i]);
        ProgramMore(was, at, d, i, 1);
        i := i + 1;
        done := i;
      }
      ok := true;
    }

    /** Erases the sector holding `at`; on a failed transfer it may have been erased all the same. */
    method SectorErase(at: nat) returns (ok: bool, ghost done: bool)
      requires Valid()
      modifies this`fault, cells
      ensures ok ==> done && at < DISK_SIZE
      ensures cells[..] == if done then Wiped(old(cells[..]), at - at % SECTOR, SECTOR) else old(cells[..])
      ensures old(fault) ==> fault
      ensures ok || fault || at >= DISK_SIZE
    {
      ok := *;
      fault := fault || !ok;
      var base, attempted := at - at % SECTOR, *;
      done := false;
      if base >= DISK_SIZE {
        return false, false;
      }
      if ok || attempted {
        forall i | base <= i < base + SECTOR {
          cells[i] := ERASED;
        }
        done := true;
      }
    }
  }

  /** Bytes that lie in the region, or no bytes at all. */
  predicate InRegion(base: nat, end: nat, at: nat, n: nat) {
    n == 0 || (base <= at < end && at + n <= end)
  }

  /**
   * Writes a buffer page by page. Every program it issues is one the driver accepts, and together they program
   * the buffer exactly once: without a failed transfer all of it, otherwise its first `done` bytes.
   */
  method PagedWrite(disk: Disk, base: nat, end: nat, at: nat, buf: seq<byte>) returns (ok: bool, ghost done: nat)
    requires disk.Valid() && base <= end <= DISK_SIZE
    modifies disk`fault, disk.cells
    ensures done <= |buf| && (ok ==> done == |buf| && InRegion(base, end, at, |buf|))
    ensures disk.cells[..] == Programmed(old(disk.cells[..]), at, buf, done)
    ensures old(disk.fault) ==> disk.fault
    ensures ok || disk.fault || !InRegion(base, end, at, |buf|)
  {
    done := 0;
    if |buf| != 0 && (at < base || at >= end || |buf| > end - at) {
      return false, 0;
    }
    ghost var was := disk.cells[..];
    var written := 0;
    while written < |buf|
      invariant written <= |buf| && done == written
      invariant disk.cells[..] == Programmed(was, at, buf, written)
      invariant old(disk.fault) ==> disk.fault
    {
      var cur := at + written;
      var remain, chunk := PAGE - cur % PAGE, |buf| - written;
      if chunk > remain {
        chunk := remain;
      }
      ghost var n;
      ok, n := disk.PageProgram(cur, buf[written..written + chunk]);
      ProgramPart(was, at, buf, written, chunk, n);
      done := written + n;
      if !ok { return; }
      written := written + chunk;
    }
    ok := true;
  }

  lemma ProgramPart(s: seq<byte>, at: nat, d: seq<byte>, n: nat, k: nat, j: nat)
    requires n + k <= |d| && j <= k
    ensures Programmed(Programmed(s, at, d, n), at + n, d[n..n + k], j) == Programmed(s, at, d, n + j)
  {
  }

  /** Whether n bytes are erased, read 64 at a time. A failed read counts as not erased. */
  method IsErased(disk: Disk, base: nat, end: nat, at: nat, n: nat) returns (erased: bool)
    requires disk.Valid() && base <= end <= DISK_SIZE && at + n <= DISK_SIZE
    modifies disk`fault
    ensures old(disk.fault) ==> disk.fault
    ensures erased ==> AllErased(disk.cells[..], at, n)
    ensures erased || disk.fault || !AllErased(disk.cells[..], at, n) || !InRegion(base, end, at, n)
  {
    if n != 0 && (at < base || at >= end || n > end - at) {
      return false;
    }
    var off := 0;
    while off < n
      invariant off <= n && (old(disk.fault) ==> disk.fault)
      invariant forall i | at <= i < at + off :: disk.cells[i] == ERASED
    {
      var chunk := n - off;
      if chunk > 64 {
        chunk := 64;
      }
      var ok, tmp := disk.Read(at + off, chunk);
      if !ok { return false; }
      var i := 0;
      while i < chunk
        invariant i <= chunk && forall j | 0 <= j < i :: tmp[j] == ERASED
      {
        assert tmp[i] == disk.cells[at + off + i];
        if tmp[i] != ERASED {
          return false;
        }
        i := i + 1;
      }
      forall j | at + off <= j < at + off + chunk ensures disk.cells[j] == ERASED {
        assert tmp[j - at - off] == ERASED;
      }
      off := off + chunk;
    }
    erased := true;
  }

  lemma WipeNothing(s: seq<byte>, at: nat)
    ensures Wiped(s, at, 0) == s
  {
  }

  lemma WipeMore(s: seq<byte>, at: nat, n: nat, k: nat)
    ensures Wiped(Wiped(s, at, n), at + n, k) == Wiped(s, at, n + k)
  {
  }

  /** Erases, in order, every sector the bytes touch; `done` bytes' worth of sectors were erased. */
  method EraseRange(disk: Disk, base: nat, end: nat, at: nat, n: nat) returns (ok: bool, ghost done: nat)
    requires disk.Valid() && base <= end <= DISK_SIZE
    modifies disk`fault, disk.cells
    ensures ok ==> InRegion(base, end, at, n) && done == Span(at, n)
    ensures done <= Span(at, n) && disk.cells[..] == Wiped(old(disk.cells[..]), at - at % SECTOR, done)
    ensures old(disk.fault) ==> disk.fault
    ensures ok || disk.fault || n == 0 || !InRegion(base, end, at, n)
  {
    hide Wiped;
    done := 0;
    ghost var was := disk.cells[..];
    WipeNothing(was, at - at % SECTOR);
    if n != 0 && (at < base || at >= end || n > end - at) {
      return false, 0;
    }
    var addr, stop := at - at % SECTOR, Align4(at + n);
    ghost var start, k, m := addr, 0, SectorsIn(stop - addr);
    while addr < stop
      invariant 0 <= k <= m && done == SECTOR * k && addr == start + done
      invariant disk.cells[..] == Wiped(was, start, done)
      invariant old(disk.fault) ==> disk.fault
      decreases stop - addr
    {
      SectorStart(at, k);
      ghost var erased;
      ok, erased := disk.SectorErase(addr);
      WipeMore(was, start, done, SECTOR);
      done := if erased then done + SECTOR else done;
      if !ok { return; }
      addr, k := addr + SECTOR, k + 1;
    }
    ok := true;
  }

  lemma SectorStart(at: nat, k: nat)
    ensures (at - at % SECTOR + SECTOR * k) % SECTOR == 0
  {
    assert at - at % SECTOR + SECTOR * k == SECTOR * (at / SECTOR + k);
    Multiple(at / SECTOR + k);
  }

  lemma Multiple(q: nat)
    ensures SECTOR * q % SECTOR == 0
  {
  }

  // ---- Records ----

  /** Assembles a record in a buffer preset to the erased value. */
  method BuildRecord(r: Rec) returns (buf: seq<byte>)
    ensures buf == Encoded(r)
  {
    var header := ComputeCrc32(Words(Header(r, 0)));
    var payload := ComputeCrc32(r.payload);
    var crc := Mix(header, payload);
    var len := RecLen(|r.payload|);
    var raw := new byte[len](_ => ERASED);
    var ws := Words(Header(r, crc));
    CopyInto(raw, 0, ws);
    CopyInto(raw, HEADER, r.payload);
    buf := raw[..];
    Assembled(buf, ws, r.payload, Blank(len - HEADER - |r.payload|));
  }

  lemma Assembled(buf: seq<byte>, a: seq<byte>, b: seq<byte>, c: seq<byte>)
    requires |buf| == |a| + |b| + |c|
    requires buf[..|a|] == a && buf[|a|..|a| + |b|] == b && buf[|a| + |b|..] == c
    ensures buf == a + b + c
  {
  }

  method CopyInto(raw: array<byte>, at: nat, d: seq<byte>)
    requires at + |d| <= raw.Length
    modifies raw
    ensures raw[..] == Splice(old(raw[..]), at, d)
  {
    ghost var was := raw[..];
    forall i | 0 <= i < |d| {
      raw[at + i] := d[i];
    }
    forall j | 0 <= j < |was| ensures raw[j] == Splice(was, at, d)[j] {
      SpliceAt(was, at, d, j);
    }
  }

  /** Reads and checks the record at an address the way a scan does; `r` is None where the scan stops. */
  method ReadRecord(disk: Disk, at: nat, end: nat, cacheOnly: bool) returns (ok: bool, r: Option<Record>)
    requires disk.Valid() && at + HEADER <= end <= DISK_SIZE
    modifies disk`fault
    ensures old(disk.fault) ==> disk.fault
    ensures ok ==> r == ParseAt(disk.cells[..], at, end, cacheOnly)
    ensures ok || disk.fault
  {
    hide RecLen, Words, ReadWords, Crc32;
    r := None;
    var raw, payload;
    ok, raw := disk.Read(at, HEADER);
    if !ok { return; }
    ghost var mem := disk.cells[..];
    assert raw == mem[at..at + HEADER];
    var ws := ReadWords(raw, 6);
    var version, kind, len := Low(ws[1]), High(ws[1]), Low(ws[4]);
    if ws[0] == 0xFFFF_FFFF { return; }
    if ws[0] != STORAGE_MAGIC || version != STORAGE_VERSION || (cacheOnly && kind != REC_CACHE) { return; }
    if len > MAX_PAYLOAD || (cacheOnly && len == 0) { return; }
    var recLen := RecLen(len);
    if at + recLen > end { return; }
    ok, payload := disk.Read(at + HEADER, recLen - HEADER);
    if !ok { return; }
    assert payload == mem[at + HEADER..at + recLen];
    TakeSlice(mem, at + HEADER, at + recLen, len);
    var header := ComputeCrc32(Words(ws[5 := 0]));
    var body := ComputeCrc32(payload[..len]);
    if ws[5] != Mix(header, body) { return; }
    r := Some(Record(kind, ws[2], ws[3], payload[..len]));
  }

  /** A record's bytes end at this address. */
  predicate LiesBefore(mem: seq<byte>, stop: nat, r: Rec) {
    RecLen(|r.payload|) <= stop <= |mem| && mem[stop - RecLen(|r.payload|)..stop] == Encoded(r)
  }

  /**
   * What a reported success leaves: the bytes in erased cells, or in cells erased with their whole sectors. Only a
   * failed read makes it erase the sectors of cells that were clean.
   */
  predicate PutDone(mem: seq<byte>, mem': seq<byte>, at: nat, d: seq<byte>, fault: bool)
    requires at + |d| <= |mem|
  {
    mem' == Put(mem, at, d) || (fault && AllErased(mem, at, |d|) && mem' == PutFresh(mem, at, d))
  }

  /** A scan that a failed read stopped behind s.count records, all of which the whole scan would count too. */
  predicate CutScan(mem: seq<byte>, base: nat, end: nat, cacheOnly: bool, last: u32, s: Scanned)
    requires base <= end <= |mem|
  {
    && s == ScanFirst(mem, base, end, cacheOnly, last, s.count)
    && var rest := Scan(mem, s.addr, end, cacheOnly, s.lastSeq);
       Scan(mem, base, end, cacheOnly, last) == rest.(count := s.count + rest.count)
  }

  /** The event scan failed: count and last number are those of the records read, the write address is as before. */
  ghost predicate EventsCut(before: Store, after: Store)
    requires StoreOk(before)
  {
    exists s: Scanned ::
      && CutScan(before.mem, EVENT_BASE, EVENT_END, false, 0, s)
      && after == before.(eventCount := s.count, lastSeq := s.lastSeq)
  }

  /** The cache scan failed: nothing counts as acknowledged any more, and the write address is as before. */
  ghost predicate CacheCut(before: Store, after: Store)
    requires StoreOk(before)
  {
    exists s: Scanned ::
      && CutScan(before.mem, CACHE_BASE, CACHE_END, true, before.lastSeq, s)
      && after == before.(backlog := s.count, cacheRead := CACHE_BASE, lastSeq := s.lastSeq)
  }

  /** The storage task: RAM counters and addresses over the external flash. */
  class Task {
    const disk: Disk
    var eventAddr: nat
    var eventCount: nat
    var cacheRead: nat
    var cacheWrite: nat
    var backlog: nat
    var lastSeq: u32

    ghost predicate Valid()
      reads this, disk, disk.cells
    {
      disk.Valid() && StoreOk(State())
    }

    ghost function State(): Store
      reads this, disk.cells
    {
      Store(disk.cells[..], eventAddr, eventCount, cacheRead, cacheWrite, backlog, lastSeq)
    }

    constructor (d: Disk)
      requires d.Valid()
      ensures Valid() && disk == d && State() == Store(d.cells[..], EVENT_BASE, 0, CACHE_BASE, CACHE_BASE, 0, 0)
    {
      disk := d;
      eventAddr, eventCount, cacheRead, cacheWrite, backlog, lastSeq := EVENT_BASE, 0, CACHE_BASE, CACHE_BASE, 0, 0;
    }

    /** The scan loop of one region. */
    method ScanRegion(base: nat, end: nat, cacheOnly: bool, last: u32) returns (ok: bool, s: Scanned)
      requires Valid() && base <= end <= DISK_SIZE
      modifies disk`fault
      ensures ok ==> s == Scan(disk.cells[..], base, end, cacheOnly, last)
      ensures !ok ==> CutScan(disk.cells[..], base, end, cacheOnly, last, s)
      ensures old(disk.fault) ==> disk.fault
      ensures ok || disk.fault
    {
      hide ParseAt, RecLen, ScanFirst;
      ScanNone(disk.cells[..], base, end, cacheOnly, last);
      ghost var mem := disk.cells[..];
      var addr, count, seqNo := base, 0, last;
      while addr + HEADER <= end
        invariant base <= addr <= end && disk.cells[..] == mem && (old(disk.fault) ==> disk.fault)
        invariant var rest := Scan(mem, addr, end, cacheOnly, seqNo);
                  Scan(mem, base, end, cacheOnly, last) == rest.(count := rest.count + count)
        invariant ScanFirst(mem, base, end, cacheOnly, last, count) == Scanned(count, seqNo, addr)
        decreases end - addr
      {
        var r;
        ok, r := ReadRecord(disk, addr, end, cacheOnly);
        if !ok { return false, Scanned(count, seqNo, addr); }
        match r
        case None => return true, Scanned(count, seqNo, addr);
        case Some(found) =>
          ScanMore(mem, base, end, cacheOnly, last, count);
          count := count + 1;
          if found.seqNo > seqNo {
            seqNo := found.seqNo;
          }
          addr := addr + RecLen(|found.payload|);
      }
      NoRoom(mem, addr, end, cacheOnly, seqNo);
      return true, Scanned(count, seqNo, addr);
    }

    method ScanEvents() returns (ok: bool)
      requires Valid()
      modifies this, disk`fault
      ensures Valid()
      ensures var s := Scan(old(disk.cells[..]), EVENT_BASE, EVENT_END, false, 0);
              ok ==> State() == old(State()).(eventCount := s.count, eventAddr := s.addr, lastSeq := s.lastSeq)
      ensures !ok ==> EventsCut(old(State()), State())
      ensures old(disk.fault) ==> disk.fault
      ensures ok || disk.fault
    {
      eventCount, lastSeq := 0, 0;
      var s;
      ok, s := ScanRegion(EVENT_BASE, EVENT_END, false, lastSeq);
      eventCount, lastSeq := s.count, s.lastSeq;
      if ok {
        eventAddr := s.addr;
      }
    }

    method ScanCache() returns (ok: bool)
      requires Valid()
      modifies this, disk`fault
      ensures Valid()
      ensures ok ==> State() == RescanCache(old(State()))
      ensures !ok ==> CacheCut(old(State()), State())
      ensures old(disk.fault) ==> disk.fault
      ensures ok || disk.fault
    {
      backlog, cacheRead := 0, CACHE_BASE;
      var s;
      ok, s := ScanRegion(CACHE_BASE, CACHE_END, true, lastSeq);
      backlog, lastSeq := s.count, s.lastSeq;
      if ok {
        cacheWrite := s.addr;
      }
    }

    /** Erase if needed, program, and compare with what was meant. */
    method PutRecord(base: nat, end: nat, at: nat, buf: seq<byte>) returns (ok: bool)
      requires Valid() && base <= at && at + |buf| <= end <= DISK_SIZE && |buf| > 0
      modifies disk`fault, disk.cells
      ensures old(disk.fault) ==> disk.fault
      ensures ok ==> disk.cells[..][at..at + |buf|] == buf
      ensures ok ==> PutDone(old(disk.cells[..]), disk.cells[..], at, buf, disk.fault)
      ensures !disk.fault ==> ok && disk.cells[..] == Put(old(disk.cells[..]), at, buf)
    {
      hide Span;
      ghost var was := disk.cells[..];
      var erased := IsErased(disk, base, end, at, |buf|);
      if !erased {
        ghost var n;
        ok, n := EraseRange(disk, base, end, at, |buf|);
        if !ok { return; }
        SpanErases(was, at, |buf|);
      }
      ghost var done;
      ghost var clear := disk.cells[..];
      assert AllErased(clear, at, |buf|);
      ok, done := PagedWrite(disk, base, end, at, buf);
      if !ok { return; }
      WrittenBack(clear, at, buf);
      var back;
      ok, back := disk.Read(at, |buf|);
      if !ok { return; }
      assert back == disk.cells[..][at..at + |buf|];
      ok := back == buf;
    }

    /** Appends an event or fault record. */
    method WriteRecord(kind: u16, payload: seq<byte>, tick: u32) returns (ok: bool)
      requires Valid()
      modifies this, disk`fault, disk.cells
      ensures Valid()
      ensures old(disk.fault) ==> disk.fault
      ensures !disk.fault ==> ok == PayloadOk(payload) && State() == WriteEvent(old(State()), kind, payload, tick)
      ensures ok ==> PayloadOk(payload)
                     && State() == WriteEvent(old(State()), kind, payload, tick).(mem := disk.cells[..])
                     && LiesBefore(disk.cells[..], eventAddr, Record(kind, lastSeq, tick, payload))
                     && var d := Encoded(Record(kind, lastSeq, tick, payload));
                        PutDone(old(disk.cells[..]), disk.cells[..], eventAddr - |d|, d, disk.fault)
      ensures !ok ==> eventAddr in {old(eventAddr), EVENT_BASE}
                      && State() == old(State()).(mem := disk.cells[..], eventAddr := eventAddr)
    {
      hide Encoded, RecLen, Put, PutFresh, AllErased;
      if |payload| == 0 || |payload| > MAX_PAYLOAD {
        return false;
      }
      var len := RecLen(|payload|);
      if eventAddr + len > EVENT_END {
        eventAddr := EVENT_BASE;
      }
      var seqNo := NextSeq(lastSeq);
      var buf := BuildRecord(Record(kind, seqNo, tick, payload));
      ok := PutRecord(EVENT_BASE, EVENT_END, eventAddr, buf);
      if ok {
        lastSeq, eventCount, eventAddr := seqNo, eventCount + 1, eventAddr + len;
      }
    }

    /** Appends a record to the upload cache; starting the region over drops the whole backlog. */
    method WriteCacheRecord(payload: seq<byte>, tick: u32) returns (ok: bool)
      requires Valid()
      modifies this, disk`fault, disk.cells
      ensures Valid()
      ensures old(disk.fault) ==> disk.fault
      ensures !disk.fault ==> ok == PayloadOk(payload) && State() == WriteCache(old(State()), payload, tick)
      ensures ok ==> PayloadOk(payload)
                     && State() == WriteCache(old(State()), payload, tick).(mem := disk.cells[..])
                     && LiesBefore(disk.cells[..], cacheWrite, Record(REC_CACHE, lastSeq, tick, payload))
                     && var d := Encoded(Record(REC_CACHE, lastSeq, tick, payload));
                        PutDone(old(disk.cells[..]), disk.cells[..], cacheWrite - |d|, d, disk.fault)
      ensures !ok ==> (cacheRead, cacheWrite, backlog) in
                        {(old(cacheRead), old(cacheWrite), old(backlog)), (CACHE_BASE, CACHE_BASE, 0)}
                      && State() == old(State()).(mem := disk.cells[..], cacheRead := cacheRead,
                                                  cacheWrite := cacheWrite, backlog := backlog)
    {
      hide Encoded, RecLen, Put, PutFresh, AllErased;
      if |payload| == 0 || |payload| > MAX_PAYLOAD {
        return false;
      }
      var len := RecLen(|payload|);
      if cacheWrite + len > CACHE_END {
        cacheWrite, cacheRead, backlog := CACHE_BASE, CACHE_BASE, 0;
      }
      var seqNo := NextSeq(lastSeq);
      var buf := BuildRecord(Record(REC_CACHE, seqNo, tick, payload));
      ok := PutRecord(CACHE_BASE, CACHE_END, cacheWrite, buf);
      if ok {
        lastSeq, cacheWrite, backlog := seqNo, cacheWrite + len, backlog + 1;
      }
    }

    /** Shows the oldest unacknowledged record; a malformed header makes it rescan the cache instead. */
    method PeekCache() returns (ok: bool, seqNo: u32, payload: seq<byte>)
      requires Valid()
      modifies this, disk`fault
      ensures Valid()
      ensures ok ==> (Peek(old(State())).1.Some? && Peek(old(State())).1.value.seqNo == seqNo
                      && Peek(old(State())).1.value.payload == payload)
      ensures ok ==> State() == old(State())
      ensures old(disk.fault) ==> disk.fault
      ensures !ok && !disk.fault ==> Peek(old(State())).1.None?
      ensures !disk.fault ==> State() == Peek(old(State())).0
      ensures State() in {old(State()), Peek(old(State())).0} || CacheCut(old(State()), State())
    {
      hide RecLen, Scan, ReadWords;
      seqNo, payload := 0, [];
      if backlog == 0 {
        return false, 0, [];
      }
      ghost var mem := disk.cells[..];
      var raw;
      ok, raw := disk.Read(cacheRead, HEADER);
      if !ok { return; }
      assert raw == mem[cacheRead..cacheRead + HEADER];
      var ws := ReadWords(raw, 6);
      var kind, len := High(ws[1]), Low(ws[4]);
      if ws[0] != STORAGE_MAGIC || kind != REC_CACHE || len == 0 || len > MAX_PAYLOAD {
        var scanned := ScanCache();
        return false, 0, [];
      }
      if cacheRead + RecLen(len) > CACHE_END {
        return false, 0, [];
      }
      ok, payload := disk.Read(cacheRead + HEADER, len);
      seqNo := ws[2];
    }

    /** Drops the oldest cached record when the acknowledgement names it. */
    method MarkCacheAck(named: u32) returns (ok: bool)
      requires Valid()
      modifies this, disk`fault
      ensures Valid()
      ensures old(disk.fault) ==> disk.fault
      ensures ok ==> MarkAck(old(State()), named).1
      ensures !ok ==> State() == old(State())
      ensures ok || disk.fault || !MarkAck(old(State()), named).1
      ensures ok ==> State() == MarkAck(old(State()), named).0
    {
      if backlog == 0 {
        return false;
      }
      ghost var mem := disk.cells[..];
      var raw;
      ok, raw := disk.Read(cacheRead, HEADER);
      if !ok { return; }
      assert raw == mem[cacheRead..cacheRead + HEADER];
      var ws := ReadWords(raw, 6);
      if ws[2] != named {
        return false;
      }
      cacheRead := cacheRead + RecLen(Low(ws[4]));
      if cacheRead >= CACHE_END {
        cacheRead := CACHE_BASE;
      }
      if backlog > 0 {
        backlog := backlog - 1;
      }
      ok := true;
    }

    /** What the task does when it starts: scan both regions, then log the boot. */
    method StartUp(tick: u32) returns (ok: bool)
      requires Valid()
      modifies this, disk`fault, disk.cells
      ensures Valid()
      ensures !disk.fault ==> ok && State() == WriteEvent(Rescan(old(State())), REC_EVENT, BOOT_EVENT, tick)
    {
      hide Scan, WriteEvent, RescanCache;
      var events := ScanEvents();
      var cached := ScanCache();
      var logged := WriteRecord(REC_EVENT, BOOT_EVENT, tick);
      ok := events && cached && logged;
    }
  }

  /** "event=boot" */
  const BOOT_EVENT: seq<byte> := [101, 118, 101, 110, 116, 61, 98, 111, 111, 116]

  lemma {:induction false} ScanNone(mem: seq<byte>, at: nat, end: nat, cacheOnly: bool, last: u32)
    requires at <= end <= |mem|
    ensures ScanFirst(mem, at, end, cacheOnly, last, 0) == Scanned(0, last, at)
  {
  }

  /** One more record behind the first n. */
  lemma {:induction false} ScanMore(mem: seq<byte>, at: nat, end: nat, cacheOnly: bool, last: u32, n: nat)
    requires at <= end <= |mem| && ScanFirst(mem, at, end, cacheOnly, last, n).count == n
    ensures var s := ScanFirst(mem, at, end, cacheOnly, last, n);
            var p := ParseAt(mem, s.addr, end, cacheOnly);
            p.Some? ==>
              ScanFirst(mem, at, end, cacheOnly, last, n + 1)
              == Scanned(n + 1, Greater(p.value.seqNo, s.lastSeq), s.addr + RecLen(|p.value.payload|))
    decreases n
  {
    hide ParseAt, RecLen;
    var p := ParseAt(mem, at, end, cacheOnly);
    if n > 0 {
      ScanMore(mem, at + RecLen(|p.value.payload|), end, cacheOnly, Greater(p.value.seqNo, last), n - 1);
    } else if p.Some? {
      ScanNone(mem, at + RecLen(|p.value.payload|), end, cacheOnly, Greater(p.value.seqNo, last));
    }
  }

  lemma {:induction false} NoRoom(mem: seq<byte>, at: nat, end: nat, cacheOnly: bool, last: u32)
    requires at <= end <= |mem| && at + HEADER > end
    ensures Scan(mem, at, end, cacheOnly, last) == Scanned(0, last, at)
  {
  }

  /** The erased sectors cover the record. */
  lemma SpanErases(mem: seq<byte>, at: nat, n: nat)
    requires at + n <= |mem|
    ensures AllErased(Wiped(mem, at - at % SECTOR, Span(at, n)), at, n)
  {
  }

  /** Programming erased cells reads back as written. */
  lemma WrittenBack(mem: seq<byte>, at: nat, d: seq<byte>)
    requires at + |d| <= |mem| && AllErased(mem, at, |d|)
    ensures Programmed(mem, at, d, |d|)[at..at + |d|] == d
  {
    ProgramBlank(mem, at, d, |d|);
    assert Splice(mem, at, d[..|d|])[at..at + |d|] == d[..|d|];
  }
}
