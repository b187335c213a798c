/** Flash and RAM agree: rescanning the external log reproduces the task's state, until a region first wraps. */
module StorageHistory {
  import opened Bytes
  import opened Flash
  import opened StorageLog

  ghost predicate AllCached(rs: seq<Rec>) {
    forall i | 0 <= i < |rs| :: rs[i].kind == REC_CACHE
  }

  function Layout(rs: seq<Rec>): (s: seq<byte>)
    ensures |s| >= HEADER * |rs|
  {
    if rs == [] then [] else Encoded(rs[0]) + Layout(rs[1..])
  }

  lemma {:induction false} LayoutAppend(a: seq<Rec>, b: seq<Rec>)
    ensures Layout(a + b) == Layout(a) + Layout(b)
  {
    hide Encoded;
    if a == [] {
      assert a + b == b;
    } else {
      assert (a + b)[1..] == a[1..] + b;
      LayoutAppend(a[1..], b);
    }
  }

  function Highest(last: u32, rs: seq<Rec>): u32
    decreases |rs|
  {
    if rs == [] then last else Highest(Greater(rs[0].seqNo, last), rs[1..])
  }

  lemma {:induction false} HighestAppend(last: u32, a: seq<Rec>, r: Rec)
    ensures Highest(last, a + [r]) == Greater(r.seqNo, Highest(last, a))
    decreases |a|
  {
    if a == [] {
      assert a + [r] == [r];
    } else {
      assert (a + [r])[1..] == a[1..] + [r];
      HighestAppend(Greater(a[0].seqNo, last), a[1..], r);
    }
  }

  lemma {:induction false} HighestGrows(last: u32, more: u32, rs: seq<Rec>)
    requires last <= more
    ensures more <= Highest(more, rs) && Highest(last, rs) <= Highest(more, rs)
    ensures Highest(more, rs) == Greater(more, Highest(last, rs))
    decreases |rs|
  {
    if rs != [] {
      HighestGrows(Greater(rs[0].seqNo, last), Greater(rs[0].seqNo, more), rs[1..]);
    }
  }

  // ---- Parsing what was written ----

  lemma EncodedParts(r: Rec)
    ensures Encoded(r)[..HEADER] == Words(Header(r, RecCrc(r)))
    ensures Encoded(r)[HEADER..HEADER + |r.payload|] == r.payload
  {
    var a, b, c := Words(Header(r, RecCrc(r))), r.payload, Blank(RecLen(|r.payload|) - HEADER - |r.payload|);
    assert (a + b + c)[..HEADER] == a && (a + b + c)[HEADER..HEADER + |b|] == b;
  }

  lemma HeaderRead(mem: seq<byte>, at: nat, r: Rec)
    requires at + RecLen(|r.payload|) <= |mem|
    requires mem[at..at + RecLen(|r.payload|)] == Encoded(r)
    ensures ReadWords(mem[at..at + HEADER], 6) == Header(r, RecCrc(r))
    ensures mem[at + HEADER..at + HEADER + |r.payload|] == r.payload
  {
    var n := RecLen(|r.payload|);
    EncodedParts(r);
    SliceOfSlice(mem, at, at + n, 0, HEADER);
    SliceOfSlice(mem, at, at + n, HEADER, HEADER + |r.payload|);
    ReadWordsOfWords(Header(r, RecCrc(r)));
  }

  lemma ParseWritten(mem: seq<byte>, at: nat, end: nat, r: Rec, cacheOnly: bool)
    requires at + RecLen(|r.payload|) <= end <= |mem| && (cacheOnly ==> r.kind == REC_CACHE)
    requires mem[at..at + RecLen(|r.payload|)] == Encoded(r)
    ensures ParseAt(mem, at, end, cacheOnly) == Some(r)
  {
    hide Halves, Low, High;
    HeaderRead(mem, at, r);
    HalvesRoundTrip(STORAGE_VERSION, r.kind, 0);
    HalvesRoundTrip(|r.payload|, 0, 0);
    assert Header(r, RecCrc(r))[5 := 0] == Header(r, 0);
  }

  lemma ParseErased(mem: seq<byte>, at: nat, end: nat, cacheOnly: bool)
    requires end <= |mem| && at + HEADER <= end && forall i | at <= i < at + HEADER :: mem[i] == ERASED
    ensures ParseAt(mem, at, end, cacheOnly) == None
  {
    var h := mem[at..at + HEADER];
    ReadWordsAt(h, 6, 0);
    assert h[0] == ERASED && h[1] == ERASED && h[2] == ERASED && h[3] == ERASED;
  }

  /** Records written back to back from `at`. */
  ghost predicate Begins(mem: seq<byte>, at: nat, end: nat, rs: seq<Rec>) {
    at + |Layout(rs)| <= end <= |mem| && mem[at..at + |Layout(rs)|] == Layout(rs)
  }

  /** The same, and nothing but erased cells behind them up to `end`. */
  ghost predicate Holds(mem: seq<byte>, at: nat, end: nat, rs: seq<Rec>) {
    Begins(mem, at, end, rs) && forall i | at + |Layout(rs)| <= i < end :: mem[i] == ERASED
  }

  lemma SplitFront(mem: seq<byte>, at: nat, end: nat, e: seq<byte>, l: seq<byte>)
    requires at + |e + l| <= end <= |mem| && mem[at..at + |e + l|] == e + l
    ensures mem[at..at + |e|] == e && mem[at + |e|..at + |e| + |l|] == l
  {
    assert mem[at..at + |e|] == mem[at..at + |e + l|][..|e|];
    assert mem[at + |e|..at + |e| + |l|] == mem[at..at + |e + l|][|e|..];
  }

  lemma {:induction false} BeginsRest(mem: seq<byte>, at: nat, end: nat, rs: seq<Rec>)
    requires Begins(mem, at, end, rs) && rs != []
    ensures var n := RecLen(|rs[0].payload|);
            && at + n <= end <= |mem| && at + |Layout(rs)| == at + n + |Layout(rs[1..])|
            && mem[at..at + n] == Encoded(rs[0]) && Begins(mem, at + n, end, rs[1..])
  {
    hide Encoded, RecLen, Layout;
    LayoutHead(rs);
    SplitFront(mem, at, end, Encoded(rs[0]), Layout(rs[1..]));
  }

  lemma ScanOne(mem: seq<byte>, at: nat, end: nat, r: Rec, cacheOnly: bool, last: u32)
    requires at + RecLen(|r.payload|) <= end <= |mem| && (cacheOnly ==> r.kind == REC_CACHE)
    requires mem[at..at + RecLen(|r.payload|)] == Encoded(r)
    ensures var rest := Scan(mem, at + RecLen(|r.payload|), end, cacheOnly, Greater(r.seqNo, last));
            Scan(mem, at, end, cacheOnly, last) == rest.(count := rest.count + 1)
  {
    hide Encoded, ParseAt;
    ParseWritten(mem, at, end, r, cacheOnly);
  }

  lemma ScanStep(mem: seq<byte>, at: nat, end: nat, rs: seq<Rec>, cacheOnly: bool, last: u32)
    requires Begins(mem, at, end, rs) && rs != [] && (cacheOnly ==> rs[0].kind == REC_CACHE)
    ensures var next := at + RecLen(|rs[0].payload|);
            && next + |Layout(rs[1..])| == at + |Layout(rs)| && next <= end && Begins(mem, next, end, rs[1..])
            && var rest := Scan(mem, next, end, cacheOnly, Greater(rs[0].seqNo, last));
               Scan(mem, at, end, cacheOnly, last) == rest.(count := rest.count + 1)
  {
    hide *;
    BeginsRest(mem, at, end, rs);
    ScanOne(mem, at, end, rs[0], cacheOnly, last);
  }

  /** Scanning a region finds the records in it and stops behind the last one, unless more can be parsed there. */
  lemma {:induction false} ScanFinds(mem: seq<byte>, at: nat, end: nat, rs: seq<Rec>, cacheOnly: bool, last: u32)
    requires Begins(mem, at, end, rs) && (cacheOnly ==> AllCached(rs))
    requires ParseAt(mem, at + |Layout(rs)|, end, cacheOnly) == None
    ensures Scan(mem, at, end, cacheOnly, last) == Scanned(|rs|, Highest(last, rs), at + |Layout(rs)|)
    decreases |rs|
  {
    hide Encoded, ParseAt;
    if rs != [] {
      ScanStep(mem, at, end, rs, cacheOnly, last);
      ScanFinds(mem, at + RecLen(|rs[0].payload|), end, rs[1..], cacheOnly, Greater(rs[0].seqNo, last));
    }
  }

  lemma {:induction false} ScanHeld(mem: seq<byte>, at: nat, end: nat, rs: seq<Rec>, cacheOnly: bool, last: u32)
    requires Holds(mem, at, end, rs) && (cacheOnly ==> AllCached(rs))
    ensures Scan(mem, at, end, cacheOnly, last) == Scanned(|rs|, Highest(last, rs), at + |Layout(rs)|)
  {
    hide Encoded, Layout, Scan;
    var stop := at + |Layout(rs)|;
    if stop + HEADER <= end { ParseErased(mem, stop, end, cacheOnly); }
    ScanFinds(mem, at, end, rs, cacheOnly, last);
  }

  // ---- The invariant ----

  /** What has been written: events, cached records, and how many of those have been acknowledged. */
  datatype History = History(events: seq<Rec>, cached: seq<Rec>, acked: nat)

  function ReadAddr(h: History): nat
    requires h.acked <= |h.cached|
  {
    var at := CACHE_BASE + |Layout(h.cached[..h.acked])|;
    if at >= CACHE_END then CACHE_BASE else at
  }

  ghost predicate Logged(st: Store, h: History) {
    && StoreOk(st) && h.acked <= |h.cached|
    && Holds(st.mem, EVENT_BASE, EVENT_END, h.events)
    && Holds(st.mem, CACHE_BASE, CACHE_END, h.cached)
    && AllCached(h.cached)
    && st.eventAddr == EVENT_BASE + |Layout(h.events)| && st.eventCount == |h.events|
    && st.cacheWrite == CACHE_BASE + |Layout(h.cached)| && st.backlog == |h.cached| - h.acked
    && st.cacheRead == ReadAddr(h)
    && st.lastSeq == |h.events| + |h.cached| == Highest(Highest(0, h.events), h.cached)
  }

  /** An erased log that has just been scanned. */
  lemma FreshLog(mem: seq<byte>)
    requires |mem| == DISK_SIZE && forall i | EVENT_BASE <= i < CACHE_END :: mem[i] == ERASED
    ensures Logged(Store(mem, EVENT_BASE, 0, CACHE_BASE, CACHE_BASE, 0, 0), History([], [], 0))
  {
  }

  /** Rescanning reproduces the RAM state, with the acknowledged records back in the backlog. */
  lemma RescanReproduces(st: Store, h: History)
    requires Logged(st, h)
    ensures Rescan(st) == st.(cacheRead := CACHE_BASE, backlog := st.backlog + h.acked)
    ensures Logged(Rescan(st), h.(acked := 0))
  {
    hide Encoded;
    ScanHeld(st.mem, EVENT_BASE, EVENT_END, h.events, false, 0);
    ScanHeld(st.mem, CACHE_BASE, CACHE_END, h.cached, true, Highest(0, h.events));
  }

  // ---- Writing ----

  /** On erased cells a write is one plain copy of the buffer. */
  lemma PutOnErased(mem: seq<byte>, at: nat, d: seq<byte>)
    requires at + |d| <= |mem| && AllErased(mem, at, |d|)
    ensures Put(mem, at, d) == Splice(mem, at, d)
  {
    ProgramBlank(mem, at, d, |d|);
    assert d[..|d|] == d;
  }

  lemma SpliceBehind(mem: seq<byte>, lo: nat, at: nat, d: seq<byte>)
    requires lo <= at && at + |d| <= |mem|
    ensures var t := Splice(mem, at, d);
            t[lo..at + |d|] == mem[lo..at] + d && forall i | 0 <= i < |mem| && !(at <= i < at + |d|) :: t[i] == mem[i]
  {
    forall i | 0 <= i < |mem| ensures Splice(mem, at, d)[i] == if at <= i < at + |d| then d[i - at] else mem[i] {
      SpliceAt(mem, at, d, i);
    }
  }

  lemma PutBehind(mem: seq<byte>, at: nat, end: nat, l: seq<byte>, e: seq<byte>)
    requires at + |l| + |e| <= end <= |mem| && mem[at..at + |l|] == l
    requires forall i | at + |l| <= i < end :: mem[i] == ERASED
    ensures var t := Put(mem, at + |l|, e);
            && t[at..at + |l + e|] == l + e
            && (forall i | at + |l + e| <= i < end :: t[i] == ERASED)
            && (forall i | 0 <= i < |mem| && !(at <= i < end) :: t[i] == mem[i])
  {
    hide Put, Splice;
    PutOnErased(mem, at + |l|, e);
    SpliceBehind(mem, at, at + |l|, e);
  }

  lemma {:induction false} HoldsGrown(t: seq<byte>, at: nat, end: nat, rs: seq<Rec>, r: Rec, l: seq<byte>, e: seq<byte>)
    requires l == Layout(rs) && e == Encoded(r) && at + |l + e| <= end <= |t|
    requires t[at..at + |l + e|] == l + e && forall i | at + |l + e| <= i < end :: t[i] == ERASED
    ensures Holds(t, at, end, rs + [r])
  {
    LayoutOne(rs, r);
  }

  lemma {:induction false} PutGrows(mem: seq<byte>, at: nat, end: nat, rs: seq<Rec>, r: Rec, l: seq<byte>, e: seq<byte>)
    requires Holds(mem, at, end, rs) && l == Layout(rs) && e == Encoded(r) && at + |l| + |e| <= end
    ensures Holds(Put(mem, at + |l|, e), at, end, rs + [r])
    ensures forall i | 0 <= i < |mem| && !(at <= i < end) :: Put(mem, at + |l|, e)[i] == mem[i]
  {
    PutBehind(mem, at, end, l, e);
    HoldsGrown(Put(mem, at + |l|, e), at, end, rs, r, l, e);
  }

  /** Programming a record right behind the others extends the region's records and nothing else. */
  lemma {:induction false} PutExtends(mem: seq<byte>, at: nat, end: nat, rs: seq<Rec>, r: Rec)
    requires Holds(mem, at, end, rs) && at + |Layout(rs)| + RecLen(|r.payload|) <= end
    ensures Holds(Put(mem, at + |Layout(rs)|, Encoded(r)), at, end, rs + [r])
    ensures forall i | 0 <= i < |mem| && !(at <= i < end) :: Put(mem, at + |Layout(rs)|, Encoded(r))[i] == mem[i]
  {
    hide *;
    PutGrows(mem, at, end, rs, r, Layout(rs), Encoded(r));
  }

  lemma {:induction false} LayoutOne(rs: seq<Rec>, r: Rec)
    ensures Layout(rs + [r]) == Layout(rs) + Encoded(r)
    ensures |Layout(rs + [r])| == |Layout(rs)| + RecLen(|r.payload|)
  {
    LayoutAppend(rs, [r]);
    assert Layout([r]) == Encoded(r) + [];
  }

  lemma HoldsElsewhere(mem: seq<byte>, t: seq<byte>, at: nat, end: nat, rs: seq<Rec>)
    requires Holds(mem, at, end, rs) && |t| == |mem| && forall i | at <= i < end :: t[i] == mem[i]
    ensures Holds(t, at, end, rs)
  {
    assert t[at..at + |Layout(rs)|] == mem[at..at + |Layout(rs)|];
  }

  /** The record fits behind the others without starting the region over. */
  predicate EventFits(st: Store, payload: seq<byte>) {
    PayloadOk(payload) ==> st.eventAddr + RecLen(|payload|) <= EVENT_END
  }

  predicate CacheFits(st: Store, payload: seq<byte>) {
    PayloadOk(payload) ==> st.cacheWrite + RecLen(|payload|) <= CACHE_END
  }

  lemma SeqBounded(st: Store, h: History)
    requires Logged(st, h)
    ensures NextSeq(st.lastSeq) == st.lastSeq + 1
  {
    hide Encoded;
  }

  /** The highest sequence number after one more event, or one more cached record. */
  lemma {:induction false} SeqsAdvance(es: seq<Rec>, cs: seq<Rec>, r: Rec)
    requires r.seqNo > Highest(Highest(0, es), cs)
    ensures Highest(Highest(0, es + [r]), cs) == r.seqNo && Highest(Highest(0, es), cs + [r]) == r.seqNo
  {
    HighestAppend(0, es, r);
    HighestAppend(Highest(0, es), cs, r);
    HighestGrows(0, Highest(0, es), cs);
    HighestGrows(Highest(0, es), r.seqNo, cs);
  }

  function EventRec(st: Store, kind: u16, payload: seq<byte>, tick: u32): Rec
    requires PayloadOk(payload)
  {
    Record(kind, NextSeq(st.lastSeq), tick, payload)
  }

  function CacheRec(st: Store, payload: seq<byte>, tick: u32): Rec
    requires PayloadOk(payload)
  {
    Record(REC_CACHE, NextSeq(st.lastSeq), tick, payload)
  }

  lemma EventLogged(st: Store, h: History, kind: u16, payload: seq<byte>, tick: u32)
    requires Logged(st, h) && EventFits(st, payload) && PayloadOk(payload)
    ensures Logged(WriteEvent(st, kind, payload, tick), h.(events := h.events + [EventRec(st, kind, payload, tick)]))
  {
    hide Encoded, RecLen, Layout, Highest;
    var r, st' := EventRec(st, kind, payload, tick), WriteEvent(st, kind, payload, tick);
    SeqBounded(st, h);
    SeqsAdvance(h.events, h.cached, r);
    PutExtends(st.mem, EVENT_BASE, EVENT_END, h.events, r);
    HoldsElsewhere(st.mem, st'.mem, CACHE_BASE, CACHE_END, h.cached);
    LayoutOne(h.events, r);
  }

  lemma {:induction false} LayoutPrefix(rs: seq<Rec>, k: nat)
    requires k <= |rs|
    ensures Layout(rs) == Layout(rs[..k]) + Layout(rs[k..])
  {
    assert rs == rs[..k] + rs[k..];
    LayoutAppend(rs[..k], rs[k..]);
  }

  /** The read position ignores records written later, as long as the region has room for them. */
  lemma ReadAddrKept(h: History, r: Rec)
    requires h.acked <= |h.cached|
    requires CACHE_BASE + |Layout(h.cached)| + RecLen(|r.payload|) <= CACHE_END
    ensures ReadAddr(h.(cached := h.cached + [r])) == ReadAddr(h)
  {
    assert (h.cached + [r])[..h.acked] == h.cached[..h.acked];
    LayoutOne(h.cached, r);
  }

  lemma CacheWritten(st: Store, payload: seq<byte>, tick: u32)
    requires StoreOk(st) && CacheFits(st, payload) && PayloadOk(payload)
    ensures st.cacheWrite + RecLen(|payload|) <= |st.mem|
    ensures WriteCache(st, payload, tick)
         == st.(mem := Put(st.mem, st.cacheWrite, Encoded(CacheRec(st, payload, tick))),
                cacheWrite := st.cacheWrite + RecLen(|payload|), backlog := st.backlog + 1,
                lastSeq := NextSeq(st.lastSeq))
  {
    hide Encoded, RecLen, Put;
  }

  lemma CacheLogged(st: Store, h: History, payload: seq<byte>, tick: u32)
    requires Logged(st, h) && CacheFits(st, payload) && PayloadOk(payload)
    ensures Logged(WriteCache(st, payload, tick), h.(cached := h.cached + [CacheRec(st, payload, tick)]))
  {
    hide Encoded, RecLen, Layout, Highest, WriteCache, Put;
    CacheWritten(st, payload, tick);
    var r, st' := CacheRec(st, payload, tick), WriteCache(st, payload, tick);
    SeqBounded(st, h);
    SeqsAdvance(h.events, h.cached, r);
    PutExtends(st.mem, CACHE_BASE, CACHE_END, h.cached, r);
    HoldsElsewhere(st.mem, st'.mem, EVENT_BASE, EVENT_END, h.events);
    LayoutOne(h.cached, r);
    ReadAddrKept(h, r);
  }

  // ---- Interrupted writes ----

  /** After a write cut off at any byte, a rescan still finds every earlier record, and stops at the torn one. */
  lemma TornWriteFound(mem: seq<byte>, at: nat, end: nat, rs: seq<Rec>, r: Rec, n: nat, cacheOnly: bool, last: u32)
    requires Holds(mem, at, end, rs) && at + |Layout(rs)| + RecLen(|r.payload|) <= end
    requires n <= RecLen(|r.payload|) && (cacheOnly ==> AllCached(rs))
    requires ParseAt(Programmed(mem, at + |Layout(rs)|, Encoded(r), n), at + |Layout(rs)|, end, cacheOnly) == None
    ensures Scan(Programmed(mem, at + |Layout(rs)|, Encoded(r), n), at, end, cacheOnly, last)
         == Scanned(|rs|, Highest(last, rs), at + |Layout(rs)|)
  {
    hide Encoded, Layout, Scan, ParseAt, RecLen;
    var t, stop := Programmed(mem, at + |Layout(rs)|, Encoded(r), n), at + |Layout(rs)|;
    assert t[at..stop] == mem[at..stop];
    ScanFinds(t, at, end, rs, cacheOnly, last);
  }

  /** Exactly what a write leaves: its bytes, and erased cells around it if any cell of its place was in use. */
  lemma PutExact(mem: seq<byte>, at: nat, d: seq<byte>, i: nat)
    requires at + |d| <= |mem| && i < |mem|
    ensures Put(mem, at, d)[i] ==
      if at <= i < at + |d| then d[i - at]
      else if !AllErased(mem, at, |d|) && at / SECTOR <= i / SECTOR <= (Align4(at + |d|) - 1) / SECTOR then ERASED
      else mem[i]
  {
    hide Span;
    if d != [] { SpanSectors(at, |d|, i); }
    SpanCovers(at, |d|);
    if at <= i < at + |d| { AndErased(d[i - at]); }
  }

  /** The span is whole sectors, from the one holding the first byte to the one holding the last, rounded to four. */
  lemma SpanSectors(at: nat, n: nat, i: nat)
    requires n > 0
    ensures at - at % SECTOR <= i < at - at % SECTOR + Span(at, n) <==>
            at / SECTOR <= i / SECTOR <= (Align4(at + n) - 1) / SECTOR
  {
    var base := at - at % SECTOR;
    var m := SectorsIn(Align4(at + n) - base);
    assert base == SECTOR * (at / SECTOR);
    assert base + SECTOR * m == SECTOR * (at / SECTOR + m);
  }

  lemma SpanCovers(at: nat, n: nat)
    ensures at + n <= at - at % SECTOR + Span(at, n)
  {
  }

  lemma FirstByte(r: Rec)
    ensures Encoded(r)[0] == 0x47
  {
    WordsAt(Header(r, RecCrc(r)), 0);
    EncodedParts(r);
    assert Word(STORAGE_MAGIC)[0] == 0x47;
    assert Encoded(r)[0] == Encoded(r)[..HEADER][0] == Words(Header(r, RecCrc(r)))[0..4][0];
  }

  lemma DirtyPut(mem: seq<byte>, at: nat, d: seq<byte>)
    requires at + |d| <= |mem| && 0 < |d| && mem[at] != ERASED
    ensures forall i | at - at % SECTOR <= i < at :: Put(mem, at, d)[i] == ERASED
  {
    hide Span, Put;
    SpanCovers(at, |d|);
    forall i: nat | at - at % SECTOR <= i < at ensures Put(mem, at, d)[i] == ERASED {
      PutExact(mem, at, d, i);
    }
  }

  /**
   * The next write to the place of a write cut off after n bytes goes on as if nothing had happened exactly when
   * n is 0; otherwise it first erases whatever its sector already held.
   */
  lemma TornWriteCosts(mem: seq<byte>, at: nat, r: Rec, n: nat, d: seq<byte>)
    requires at + RecLen(|r.payload|) <= |mem| && at + |d| <= |mem| && 0 < |d| && n <= RecLen(|r.payload|)
    requires AllErased(mem, at, |d|) && AllErased(mem, at, RecLen(|r.payload|))
    ensures var t := Programmed(mem, at, Encoded(r), n);
            && (n == 0 ==> Put(t, at, d) == Splice(mem, at, d))
            && (n > 0 ==> forall i | at - at % SECTOR <= i < at :: Put(t, at, d)[i] == ERASED)
  {
    hide Encoded, RecLen, Span, Put;
    var t := Programmed(mem, at, Encoded(r), n);
    if n == 0 {
      assert t == mem;
      PutOnErased(mem, at, d);
    } else {
      FirstByte(r);
      AndErased(0x47);
      assert t[at] == 0x47;
      DirtyPut(t, at, d);
    }
  }

  // ---- Reading back in order ----

  lemma MiddlePart(mem: seq<byte>, base: nat, l: seq<byte>, a: seq<byte>, e: seq<byte>, c: seq<byte>)
    requires base + |l| <= |mem| && mem[base..base + |l|] == l && l == a + (e + c)
    ensures mem[base + |a|..base + |a| + |e|] == e
  {
    SliceOfSlice(mem, base, base + |l|, |a|, |a| + |e|);
    assert (a + (e + c))[|a|..|a| + |e|] == e;
  }

  /** The oldest unacknowledged record. */
  function Head(h: History): Rec
    requires h.acked < |h.cached|
  {
    h.cached[h.acked]
  }

  lemma {:induction false} LayoutHead(rs: seq<Rec>)
    requires rs != []
    ensures Layout(rs) == Encoded(rs[0]) + Layout(rs[1..])
  {
    hide Encoded;
  }

  lemma {:induction false} HeadSplits(rs: seq<Rec>, k: nat)
    requires k < |rs|
    ensures Layout(rs) == Layout(rs[..k]) + (Encoded(rs[k]) + Layout(rs[k + 1..]))
  {
    LayoutPrefix(rs, k);
    LayoutHead(rs[k..]);
    assert rs[k..][1..] == rs[k + 1..];
  }

  lemma PrefixGrows(rs: seq<Rec>, k: nat)
    requires k < |rs|
    ensures Layout(rs[..k + 1]) == Layout(rs[..k]) + Encoded(rs[k])
  {
    assert rs[..k + 1] == rs[..k] + [rs[k]];
    LayoutOne(rs[..k], rs[k]);
  }

  /** It lies at the read position. */
  lemma HeadInPlace(st: Store, h: History)
    requires Logged(st, h) && h.acked < |h.cached|
    ensures var n := RecLen(|Head(h).payload|);
            && st.cacheRead + n <= CACHE_END && st.mem[st.cacheRead..st.cacheRead + n] == Encoded(Head(h))
            && CACHE_BASE + |Layout(h.cached[..h.acked + 1])| == st.cacheRead + n
  {
    hide Encoded;
    HeadSplits(h.cached, h.acked);
    PrefixGrows(h.cached, h.acked);
    MiddlePart(st.mem, CACHE_BASE, Layout(h.cached), Layout(h.cached[..h.acked]), Encoded(Head(h)),
               Layout(h.cached[h.acked + 1..]));
  }

  lemma HeaderFields(ws: seq<u32>, r: Rec)
    requires ws == Header(r, RecCrc(r))
    ensures ws[0] == STORAGE_MAGIC && High(ws[1]) == r.kind && ws[2] == r.seqNo && ws[3] == r.tick
    ensures Low(ws[4]) == |r.payload|
  {
    hide Halves, Low, High;
    HalvesRoundTrip(STORAGE_VERSION, r.kind, 0);
    HalvesRoundTrip(|r.payload|, 0, 0);
  }

  lemma HeadRead(st: Store, h: History)
    requires Logged(st, h) && h.acked < |h.cached|
    ensures st.cacheRead + HEADER <= |st.mem|
    ensures var r, ws := Head(h), ReadWords(st.mem[st.cacheRead..st.cacheRead + HEADER], 6);
            && r.kind == REC_CACHE && st.cacheRead + RecLen(|r.payload|) <= CACHE_END
            && ws[0] == STORAGE_MAGIC && High(ws[1]) == r.kind && ws[2] == r.seqNo && ws[3] == r.tick
            && Low(ws[4]) == |r.payload|
            && st.mem[st.cacheRead + HEADER..st.cacheRead + HEADER + |r.payload|] == r.payload
  {
    hide Encoded;
    HeadInPlace(st, h);
    HeaderRead(st.mem, st.cacheRead, Head(h));
    HeaderFields(ReadWords(st.mem[st.cacheRead..st.cacheRead + HEADER], 6), Head(h));
  }

  /** Peeking shows the oldest unacknowledged record and changes nothing. */
  lemma PeekIsHead(st: Store, h: History)
    requires Logged(st, h)
    ensures Peek(st) == (st, if h.acked < |h.cached| then Some(Head(h)) else None)
  {
    hide Encoded;
    if h.acked < |h.cached| { HeadRead(st, h); }
  }

  /** An acknowledgement takes effect exactly when it names the oldest unacknowledged record. */
  lemma AckIsHead(st: Store, h: History, seqNo: u32)
    requires Logged(st, h)
    ensures MarkAck(st, seqNo).1 <==> h.acked < |h.cached| && Head(h).seqNo == seqNo
    ensures Logged(MarkAck(st, seqNo).0, if MarkAck(st, seqNo).1 then h.(acked := h.acked + 1) else h)
  {
    if h.acked < |h.cached| {
      HeadRead(st, h);
      HeadInPlace(st, h);
      AckMoves(st, h, seqNo);
    }
  }

  lemma AckMoves(st: Store, h: History, seqNo: u32)
    requires Logged(st, h) && h.acked < |h.cached|
    requires st.cacheRead + HEADER <= DISK_SIZE
    requires var ws := ReadWords(st.mem[st.cacheRead..st.cacheRead + HEADER], 6);
             ws[2] == Head(h).seqNo && Low(ws[4]) == |Head(h).payload|
    requires CACHE_BASE + |Layout(h.cached[..h.acked + 1])| == st.cacheRead + RecLen(|Head(h).payload|)
    ensures MarkAck(st, seqNo).1 <==> Head(h).seqNo == seqNo
    ensures Logged(MarkAck(st, seqNo).0, if MarkAck(st, seqNo).1 then h.(acked := h.acked + 1) else h)
  {
    hide Encoded;
  }

  // ---- Whole runs ----

  datatype Op =
    | LogEvent(kind: u16, payload: seq<byte>, tick: u32)
    | LogCache(payload: seq<byte>, tick: u32)
    | Acknowledge(seqNo: u32)
    | Restart

  function Perform(st: Store, op: Op): (r: Store)
    requires StoreOk(st)
    ensures StoreOk(r)
  {
    match op
    case LogEvent(kind, payload, tick) => WriteEvent(st, kind, payload, tick)
    case LogCache(payload, tick) => WriteCache(st, payload, tick)
    case Acknowledge(seqNo) => MarkAck(st, seqNo).0
    case Restart => Rescan(st)
  }

  /** No write starts its region over. */
  predicate FirstRound(st: Store, op: Op) {
    match op
    case LogEvent(_, payload, _) => EventFits(st, payload)
    case LogCache(payload, _) => CacheFits(st, payload)
    case _ => true
  }

  /** The history after one operation. */
  function Extended(st: Store, h: History, op: Op): History
    requires StoreOk(st)
  {
    match op
    case LogEvent(kind, payload, tick) =>
      if PayloadOk(payload) then h.(events := h.events + [EventRec(st, kind, payload, tick)]) else h
    case LogCache(payload, tick) =>
      if PayloadOk(payload) then h.(cached := h.cached + [CacheRec(st, payload, tick)]) else h
    case Acknowledge(seqNo) => if MarkAck(st, seqNo).1 then h.(acked := h.acked + 1) else h
    case Restart => h.(acked := 0)
  }

  lemma OpLogged(st: Store, h: History, op: Op)
    requires Logged(st, h) && FirstRound(st, op)
    ensures Logged(Perform(st, op), Extended(st, h, op))
  {
    match op
    case LogEvent(kind, payload, tick) =>
      if PayloadOk(payload) { EventLogged(st, h, kind, payload, tick); }
    case LogCache(payload, tick) =>
      if PayloadOk(payload) { CacheLogged(st, h, payload, tick); }
    case Acknowledge(seqNo) => AckIsHead(st, h, seqNo);
    case Restart => RescanReproduces(st, h);
  }

  function PerformAll(st: Store, ops: seq<Op>): (r: Store)
    requires StoreOk(st)
    ensures StoreOk(r)
    decreases |ops|
  {
    if ops == [] then st else Perform(PerformAll(st, ops[..|ops| - 1]), ops[|ops| - 1])
  }

  predicate AllFirstRound(st: Store, ops: seq<Op>)
    requires StoreOk(st)
    decreases |ops|
  {
    ops == [] ||
    (AllFirstRound(st, ops[..|ops| - 1]) && FirstRound(PerformAll(st, ops[..|ops| - 1]), ops[|ops| - 1]))
  }

  function HistoryOf(st: Store, h: History, ops: seq<Op>): History
    requires StoreOk(st)
    decreases |ops|
  {
    if ops == [] then h
    else Extended(PerformAll(st, ops[..|ops| - 1]), HistoryOf(st, h, ops[..|ops| - 1]), ops[|ops| - 1])
  }

  lemma {:induction false} RunLogged(st: Store, h: History, ops: seq<Op>)
    requires Logged(st, h) && AllFirstRound(st, ops)
    ensures Logged(PerformAll(st, ops), HistoryOf(st, h, ops))
    decreases |ops|
  {
    if ops != [] {
      RunLogged(st, h, ops[..|ops| - 1]);
      OpLogged(PerformAll(st, ops[..|ops| - 1]), HistoryOf(st, h, ops[..|ops| - 1]), ops[|ops| - 1]);
    }
  }

  /**
   * After any mix of writes, acknowledgements and restarts in the first round of both regions, a restart finds
   * in flash what RAM holds; only acknowledgements are forgotten.
   */
  lemma {:induction false} RestartFindsAll(st: Store, h: History, ops: seq<Op>)
    requires Logged(st, h) && AllFirstRound(st, ops)
    ensures var r := PerformAll(st, ops);
            Rescan(r) == r.(cacheRead := CACHE_BASE, backlog := r.backlog + HistoryOf(st, h, ops).acked)
  {
    RunLogged(st, h, ops);
    RescanReproduces(PerformAll(st, ops), HistoryOf(st, h, ops));
  }
}
