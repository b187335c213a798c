/** What a rescan of the external log accepts, what it detects, and what starting a region over costs. */
module StorageGuards {
  import opened Bytes
  import opened Crc
  import opened StorageLog
  import opened StorageHistory

  // ---- What is accepted ----

  /** Header and payload of a record as written; the padding behind them is not checked. */
  function Checked(r: Rec): (s: seq<byte>)
    ensures |s| == HEADER + |r.payload|
  {
    Words(Header(r, RecCrc(r))) + r.payload
  }

  lemma {:induction false} HeaderSpelled(h: seq<byte>, ws: seq<u32>)
    requires |h| == HEADER && ws == ReadWords(h, 6)
    ensures Words(ws) == h
  {
    WordsOfReadWords(h, 6);
  }

  /** A record with no flags set is accepted exactly when its header and payload stand there as they are written. */
  lemma AcceptedIff(mem: seq<byte>, at: nat, end: nat, cacheOnly: bool, r: Rec)
    requires at + RecLen(|r.payload|) <= end <= |mem| && (cacheOnly ==> r.kind == REC_CACHE)
    requires High(ReadWords(mem[at..at + HEADER], 6)[4]) == 0
    ensures ParseAt(mem, at, end, cacheOnly) == Some(r) <==> mem[at..at + HEADER + |r.payload|] == Checked(r)
  {
    hide RecLen, Mix, Crc32, Words, ReadWords, Low, High, Halves;
    var h, payload := mem[at..at + HEADER], mem[at + HEADER..at + HEADER + |r.payload|];
    var ws := ReadWords(h, 6);
    HeaderSpelled(h, ws);
    ReadWordsOfWords(Header(r, RecCrc(r)));
    assert mem[at..at + HEADER + |r.payload|] == h + payload;
    assert h + payload == Checked(r) <==> h == Words(Header(r, RecCrc(r))) && payload == r.payload by {
      assert (h + payload)[..HEADER] == h && (h + payload)[HEADER..] == payload;
      assert Checked(r)[..HEADER] == Words(Header(r, RecCrc(r))) && Checked(r)[HEADER..] == r.payload;
    }
    HalvesRoundTrip(STORAGE_VERSION, r.kind, ws[1]);
    HalvesRoundTrip(|r.payload|, 0, ws[4]);
    assert Header(r, RecCrc(r))[5 := 0] == Header(r, 0);
    if ParseAt(mem, at, end, cacheOnly) == Some(r) {
      assert ws == [STORAGE_MAGIC, ws[1], r.seqNo, r.tick, ws[4], ws[5]];
      assert ws[5 := 0] == Header(r, 0);
    }
  }

  lemma PaddingErased(r: Rec)
    ensures var e, n := Encoded(r), HEADER + |r.payload|;
            |e| % 4 == 0 && |e| < n + 4 && forall i | n <= i < |e| :: e[i] == ERASED
  {
    hide Words;
    assert |Encoded(r)| == RecLen(|r.payload|);
  }

  /** Record numbers count modulo 2^32. */
  lemma NumbersCount(n: nat)
    ensures NextSeq(n % 0x1_0000_0000) == (n + 1) % 0x1_0000_0000
  {
  }

  /** Where each field of a record lies. */
  lemma RecordOffsets(r: Rec)
    ensures var e := Encoded(r);
            && ReadU32(e, 0) == 0x5348_4C47 && ReadU16(e, 4) == 1 && ReadU16(e, 6) == r.kind
            && ReadU32(e, 8) == r.seqNo && ReadU32(e, 12) == r.tick
            && ReadU16(e, 16) == |r.payload| && ReadU16(e, 18) == 0
            && ReadU32(e, 20) == Mix(Crc32(Words(Header(r, 0))), Crc32(r.payload))
            && e[24..24 + |r.payload|] == r.payload
            && |e| % 4 == 0 && |e| < 28 + |r.payload| && forall i | 24 + |r.payload| <= i < |e| :: e[i] == 0xFF
  {
    var ws, e := Header(r, RecCrc(r)), Encoded(r);
    PaddingErased(r);
    EncodedParts(r);
    hide Encoded, RecLen;
    var h := e[..HEADER];
    forall k: nat | k < 6 ensures ReadU32(e, 4 * k) == ws[k] {
      WordsRead(ws, k);
      ReadInSlice(e, 0, HEADER, 4 * k);
    }
    hide Words, ReadU32, ReadU16, Halves, Crc32;
    assert ReadU32(e, 4 * 0) == ws[0] && ReadU32(e, 4 * 1) == ws[1] && ReadU32(e, 4 * 2) == ws[2];
    assert ReadU32(e, 4 * 3) == ws[3] && ReadU32(e, 4 * 4) == ws[4] && ReadU32(e, 4 * 5) == ws[5];
    HalvesAt(e, 4, 1, r.kind);
    HalvesAt(e, 16, |r.payload|, 0);
  }

  // ---- What is detected ----

  /** The mixed checksum keeps all of the payload's, and all but the top bit of the header's. */
  lemma MixKeeps(h: u32, p: u32, h': u32, p': u32)
    ensures h == h' ==> (Mix(h, p) == Mix(h', p') <==> p == p')
    ensures p == p' ==> (Mix(h, p) == Mix(h', p') <==> h % 0x8000_0000 == h' % 0x8000_0000)
  {
    var a, b := 2 * h % 0x1_0000_0000, 2 * h' % 0x1_0000_0000;
    Doubled(h);
    Doubled(h');
    hide Xor;
    if Mix(h, p) == Mix(h', p') {
      if h == h' { XorCancel(p, p', a); }
      XorCommutes(p, a);
      XorCommutes(p, b);
      if p == p' { XorCancel(a, b, p); }
    }
  }

  lemma Doubled(h: u32)
    ensures 2 * h % 0x1_0000_0000 == 2 * (h % 0x8000_0000)
  {
  }

  /** What stands at `at` in mem' is the record r with one byte changed, the one at offset k. */
  ghost predicate Flipped(mem': seq<byte>, at: nat, r: Rec, k: nat) {
    && k < HEADER + |r.payload| && at + RecLen(|r.payload|) <= |mem'|
    && OneByteApart(Checked(r), mem'[at..at + HEADER + |r.payload|], k)
  }

  lemma ApartParts(a: seq<byte>, b: seq<byte>, f: seq<byte>, k: nat)
    requires OneByteApart(a + b, f, k)
    ensures var h, p := f[..|a|], f[|a|..];
            if k < |a| then p == b && OneByteApart(a, h, k) else h == a && OneByteApart(b, p, k - |a|)
  {
    var h, p := f[..|a|], f[|a|..];
    assert forall j | 0 <= j < |a| :: (a + b)[j] == a[j] && h[j] == f[j];
    assert forall j | 0 <= j < |b| :: (a + b)[|a| + j] == b[j] && p[j] == f[|a| + j];
  }

  lemma FlippedParts(mem': seq<byte>, at: nat, r: Rec, k: nat)
    requires Flipped(mem', at, r, k)
    ensures var h, p := mem'[at..at + HEADER], mem'[at + HEADER..at + HEADER + |r.payload|];
            && (k < HEADER ==> p == r.payload && OneByteApart(Words(Header(r, RecCrc(r))), h, k))
            && (k >= HEADER ==> h == Words(Header(r, RecCrc(r))) && OneByteApart(r.payload, p, k - HEADER))
  {
    hide RecLen, Words, Header, OneByteApart;
    var f := mem'[at..at + HEADER + |r.payload|];
    ApartParts(Words(Header(r, RecCrc(r))), r.payload, f, k);
    assert f[..HEADER] == mem'[at..at + HEADER];
    assert f[HEADER..] == mem'[at + HEADER..at + HEADER + |r.payload|];
  }

  /** One byte of its payload changed: the record is no longer accepted, and a scan ends there. */
  lemma PayloadChangeFound(mem': seq<byte>, at: nat, end: nat, cacheOnly: bool, r: Rec, k: nat)
    requires Flipped(mem', at, r, k) && k >= HEADER && at + RecLen(|r.payload|) <= end <= |mem'|
    ensures ParseAt(mem', at, end, cacheOnly) == None
  {
    hide RecLen, Mix, Crc32, Words, ReadWords, Low, High, Halves;
    FlippedParts(mem', at, r, k);
    var p := mem'[at + HEADER..at + HEADER + |r.payload|];
    ReadWordsOfWords(Header(r, RecCrc(r)));
    HalvesRoundTrip(STORAGE_VERSION, r.kind, 0);
    HalvesRoundTrip(|r.payload|, 0, 0);
    assert Header(r, RecCrc(r))[5 := 0] == Header(r, 0);
    Crc32DetectsByte(r.payload, p, k - HEADER);
    MixKeeps(Crc32(Words(Header(r, 0))), Crc32(r.payload), Crc32(Words(Header(r, 0))), Crc32(p));
  }

  /**
   * A changed header whose magic number, version, kind and length still pass is found exactly when the two header
   * checksums differ in one of their low 31 bits: the top bit is shifted out of the stored checksum.
   */
  lemma HeaderChangeFoundIff(mem': seq<byte>, at: nat, end: nat, r: Rec, ws: seq<u32>)
    requires at + RecLen(|r.payload|) <= end <= |mem'|
    requires ws == ReadWords(mem'[at..at + HEADER], 6) && mem'[at + HEADER..at + HEADER + |r.payload|] == r.payload
    requires ws[0] == STORAGE_MAGIC && Low(ws[1]) == STORAGE_VERSION && Low(ws[4]) == |r.payload|
    requires ws[5] == RecCrc(r)
    ensures ParseAt(mem', at, end, false).None? <==>
            Crc32(Words(ws[5 := 0])) % 0x8000_0000 != Crc32(Words(Header(r, 0))) % 0x8000_0000
  {
    hide RecLen, Mix, Crc32, Words, ReadWords, Low, High, Halves;
    MixKeeps(Crc32(Words(ws[5 := 0])), Crc32(r.payload), Crc32(Words(Header(r, 0))), Crc32(r.payload));
  }

  // ---- Starting a region over ----

  /** One record at the region's start, behind it cells erased with their sector: a scan finds that record alone. */
  lemma {:induction false} OnlyRecordFound(mem: seq<byte>, base: nat, end: nat, r: Rec, cacheOnly: bool, last: u32)
    requires base + SECTOR <= end <= |mem| && (cacheOnly ==> r.kind == REC_CACHE)
    requires mem[base..base + RecLen(|r.payload|)] == Encoded(r)
    requires forall i | base + RecLen(|r.payload|) <= i < base + SECTOR :: mem[i] == ERASED
    ensures Scan(mem, base, end, cacheOnly, last)
         == Scanned(1, Greater(r.seqNo, last), base + RecLen(|r.payload|))
  {
    hide Encoded, ParseAt, Scan;
    var next := base + RecLen(|r.payload|);
    ScanOne(mem, base, end, r, cacheOnly, last);
    ParseErased(mem, next, end, cacheOnly);
    ScanStops(mem, next, end, cacheOnly, Greater(r.seqNo, last));
  }

  lemma {:induction false} ScanStops(mem: seq<byte>, at: nat, end: nat, cacheOnly: bool, last: u32)
    requires at <= end <= |mem| && ParseAt(mem, at, end, cacheOnly) == None
    ensures Scan(mem, at, end, cacheOnly, last) == Scanned(0, last, at)
  {
    hide ParseAt;
  }

  lemma SpanWhole(at: nat, n: nat)
    requires at % SECTOR == 0 && n > 0
    ensures Span(at, n) >= SECTOR
  {
  }

  /** Bytes put at the start of a sector that is in use: they stand there, and the rest of the sector is erased. */
  lemma PutOverUsed(mem: seq<byte>, base: nat, d: seq<byte>)
    requires base % SECTOR == 0 && base + SECTOR <= |mem| && 0 < |d| <= SECTOR && mem[base] != ERASED
    ensures var t := Put(mem, base, d);
            && t[base..base + |d|] == d
            && forall i | base + |d| <= i < base + SECTOR :: t[i] == ERASED
  {
    hide Put, Span;
    SpanWhole(base, |d|);
    var t := Put(mem, base, d);
    assert !AllErased(mem, base, |d|);
    forall i: nat | base <= i < base + SECTOR
      ensures t[i] == if i < base + |d| then d[i - base] else ERASED
    {
      PutExact(mem, base, d, i);
    }
  }

  /**
   * An event that no longer fits starts the region over. The sector it lands in is erased, so a restart finds that
   * one event, and no earlier one, while the counter in RAM goes on counting.
   */
  lemma {:induction false} EventWrapForgets(st: Store, kind: u16, payload: seq<byte>, tick: u32)
    requires StoreOk(st) && PayloadOk(payload) && st.eventAddr + RecLen(|payload|) > EVENT_END
    requires st.mem[EVENT_BASE] != ERASED
    ensures var st', r := WriteEvent(st, kind, payload, tick), EventRec(st, kind, payload, tick);
            && st'.eventAddr == EVENT_BASE + RecLen(|payload|) && st'.eventCount == st.eventCount + 1
            && Scan(st'.mem, EVENT_BASE, EVENT_END, false, 0) == Scanned(1, r.seqNo, st'.eventAddr)
  {
    hide Encoded, Put, Scan;
    var r := EventRec(st, kind, payload, tick);
    PutOverUsed(st.mem, EVENT_BASE, Encoded(r));
    OnlyRecordFound(WriteEvent(st, kind, payload, tick).mem, EVENT_BASE, EVENT_END, r, false, 0);
  }

  /** In the cache the whole backlog is dropped with it: RAM and a restart agree on the one record written. */
  lemma {:induction false} CacheWrapForgets(st: Store, payload: seq<byte>, tick: u32)
    requires StoreOk(st) && PayloadOk(payload) && st.cacheWrite + RecLen(|payload|) > CACHE_END
    requires st.mem[CACHE_BASE] != ERASED
    ensures var st', r := WriteCache(st, payload, tick), CacheRec(st, payload, tick);
            && st'.cacheRead == CACHE_BASE && st'.backlog == 1 && st'.cacheWrite == CACHE_BASE + RecLen(|payload|)
            && st'.lastSeq == r.seqNo == NextSeq(st.lastSeq)
            && Scan(st'.mem, CACHE_BASE, CACHE_END, true, 0) == Scanned(1, r.seqNo, st'.cacheWrite)
  {
    hide Encoded, Put, Scan;
    var r := CacheRec(st, payload, tick);
    PutOverUsed(st.mem, CACHE_BASE, Encoded(r));
    OnlyRecordFound(WriteCache(st, payload, tick).mem, CACHE_BASE, CACHE_END, r, true, 0);
  }

  // ---- A damaged head ----

  /** A header that is no cache record's. */
  predicate Malformed(ws: seq<u32>)
    requires |ws| == 6
  {
    ws[0] != 0x5348_4C47 || High(ws[1]) != 2 || !(0 < Low(ws[4]) <= 192)
  }

  /**
   * With the header at the read position damaged a peek shows nothing and rescans the cache from its start; the next
   * peek shows the first record found there.
   */
  lemma PeekRecovers(st: Store, r: Record)
    requires StoreOk(st) && st.backlog > 0 && st.cacheRead + HEADER <= CACHE_END
    requires Malformed(ReadWords(st.mem[st.cacheRead..st.cacheRead + HEADER], 6))
    requires ParseAt(st.mem, CACHE_BASE, CACHE_END, true) == Some(r)
    ensures var st' := Peek(st).0;
            && Peek(st).1 == None && Peek(st') == (st', Some(r))
            && st'.backlog == Scan(st.mem, CACHE_BASE, CACHE_END, true, st.lastSeq).count && st'.mem == st.mem
  {
    hide RecLen, ReadWords, Low, High, Mix, Crc32, Words;
    var st' := Peek(st).0;
    assert st' == RescanCache(st);
    assert st'.cacheRead == CACHE_BASE && st'.backlog > 0;
  }
}
