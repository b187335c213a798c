/** The update contract as the gateway sees it: what each request does to a sound device, and why it is refused. */
module Contract {
  import opened Bytes
  import opened Crc
  import opened Flash
  import opened MetaRecord
  import opened MetaLog
  import opened MetaStore
  import opened Session
  import opened Boot
  import opened Safety

  // ---- PREPARE ----

  /** The version a PREPARE announces; short ones announce none. */
  function VersionIn(p: seq<byte>): u32 {
    if |p| >= 20 then ReadU32(p, 16) else 0
  }

  /** The first reason to refuse a PREPARE on a device whose metadata is sound; e erases succeed. */
  function Unfit(m: Meta, p: seq<byte>, e: nat): Option<Error>
    requires |p| >= 12
  {
    var size, chunk := ReadU32(p, 2), ReadU16(p, 10);
    var inactive: u32 := if m.active == 0 then 0x0808_0000 else 0x0802_0000;
    if !(0 < size <= 384 * 1024) then Some(BadPayload)
    else if !(0 < chunk <= 246) then Some(BadChunkSize)
    else if |p| >= 16 && ReadU32(p, 12) != inactive then Some(BadTarget)
    else if 0 < VersionIn(p) < m.minVersion then Some(VersionRollback)
    else if e < 3 then Some(EraseFailed)
    else None
  }

  /** Neither slot holds a live image, or the metadata names no trusted slot, or this one is not trusted. */
  predicate Writable(m: Meta, slot: byte) {
    || (m.imageA.state in {0, 4} && m.imageB.state in {0, 4})
    || m.active == 0xFF || m.confirmed == 0xFF || slot !in {m.active, m.confirmed}
  }

  /** For any metadata, sound or not: what a PREPARE may name as its target. */
  lemma TargetRule(m: Meta, target: u32)
    ensures TargetAllowed(m, target) <==>
            (target == 0x0802_0000 && Writable(m, 0)) || (target == 0x0808_0000 && Writable(m, 1))
  {
  }

  /** The bytes of a slot erased, nothing else changed. */
  ghost predicate SlotErased(mem: seq<byte>, mem': seq<byte>, base: u32) {
    |mem'| == |mem| && forall i | 0 <= i < |mem| ::
      mem'[i] == if 0 <= i - (base - 0x0800_0000) < 384 * 1024 then 0xFF else mem[i]
  }

  /**
   * A PREPARE is acknowledged exactly when nothing speaks against it. It then erases the inactive slot, which a short
   * one selects by itself, and opens a session with the fields it carries.
   */
  lemma PrepareAnswered(mem: seq<byte>, c: Ctx, m: Meta, p: seq<byte>, ops: nat)
    requires |mem| == FLASH_SIZE && Sane(m) && |p| >= 12
    ensures var s, reason := Prepare(mem, c, m, p, ops), Unfit(m, p, ops);
            var inactive: u32 := if m.active == 0 then 0x0808_0000 else 0x0802_0000;
            && s.reply == (if reason.Some? then Nack(ReadU16(p, 0), reason.value) else Ack(ReadU16(p, 0)))
            && s.meta == m && !s.reset
            && (reason.None? ==>
                  && SlotErased(mem, s.mem, inactive)
                  && s.ctx == Ctx(true, (ReadU16(p, 0) + 1) % 0x1_0000, inactive, ReadU32(p, 2), ReadU32(p, 6),
                                  ReadU16(p, 10), VersionIn(p), 0))
            && (reason.Some? && reason != Some(EraseFailed) ==> s.mem == mem)
  {
    TargetIsAway(m, Target(m, p));
  }

  // ---- DATA ----

  /** The frame taken last, once more. */
  predicate Repeats(c: Ctx, p: seq<byte>)
    requires |p| >= 8
  {
    var n := |p| - 8;
    Next16(ReadU16(p, 0)) == c.expected && ReadU16(p, 6) == n && (ReadU32(p, 2) + n) % 0x1_0000_0000 == c.offset
  }

  /** The next frame in order, within the image. */
  predicate Continues(c: Ctx, p: seq<byte>)
    requires |p| >= 8
  {
    var n := |p| - 8;
    && ReadU16(p, 0) == c.expected && ReadU16(p, 6) == n <= c.chunk
    && ReadU32(p, 2) == c.offset && (c.offset + n) % 0x1_0000_0000 <= c.size
  }

  /** Flash takes all of d: the operations last, and no cell lacks a bit. */
  ghost predicate Takes(mem: seq<byte>, at: int, d: seq<byte>, ops: nat) {
    0 < |d| <= ops && 0 <= at && at + |d| <= |mem| && forall i | 0 <= i < |d| :: And(mem[at + i], d[i]) == d[i]
  }

  lemma ReportsTaken(mem: seq<byte>, at: int, d: seq<byte>, ops: nat)
    ensures WriteReports(mem, at, d, Min(ops, |d|)) <==> Takes(mem, at, d, ops)
  {
    if WriteReports(mem, at, d, Min(ops, |d|)) { WriteFits(mem, at, d, Min(ops, |d|)); }
  }

  lemma SameBefore(a: u16, b: u16)
    ensures Next16(a) == b <==> a == (b - 1) % 0x1_0000
  {
  }

  /** A DATA frame in a session: acknowledged if it repeats the last one, or continues the image and flash takes it. */
  lemma DataAnswered(mem: seq<byte>, c: Ctx, m: Meta, p: seq<byte>, ops: nat)
    requires |mem| == FLASH_SIZE && CtxOk(c) && c.active && |p| >= 8
    ensures var s, n, seqNo := Data(mem, c, m, p, ops), |p| - 8, ReadU16(p, 0);
            var taken := Takes(mem, c.target + c.offset - 0x0800_0000, p[8..], ops);
            && s.reply == (if Repeats(c, p) || (Continues(c, p) && taken) then Ack(seqNo)
                           else if Continues(c, p) then Nack(seqNo, WriteFailed)
                           else if seqNo == c.expected && (ReadU16(p, 6) != n || n > c.chunk)
                           then Nack(seqNo, BadPayload) else Nack(seqNo, BadOffset))
            && (!Repeats(c, p) && Continues(c, p) && taken ==>
                  s.ctx == c.(offset := c.offset + n, expected := Next16(c.expected)))
            && (Repeats(c, p) || !Continues(c, p) ==> s.mem == mem && s.ctx == c)
            && s.meta == m && !s.reset
  {
    hide Programmed, ReadU32, ReadU16, And;
    SameBefore(ReadU16(p, 0), c.expected);
    ReportsTaken(mem, Index(c.target) + c.offset, p[8..], ops);
    hide Takes, WriteReports;
  }

  // ---- VERIFY ----

  /** A VERIFY in a session: acknowledged exactly when the image is complete and what was announced, and plausible. */
  lemma VerifyAnswered(mem: seq<byte>, c: Ctx, m: Meta, p: seq<byte>)
    requires |mem| == FLASH_SIZE && CtxOk(c) && c.active && |p| >= 6
    ensures var s, seqNo, at := Verify(mem, c, m, p), ReadU16(p, 0), c.target - 0x0800_0000;
            && (if seqNo != c.expected || ReadU32(p, 2) != c.crc || c.offset != c.size
                then s.reply == Nack(seqNo, BadPayload)
                else if Crc32(mem[at..at + c.size]) != c.crc then s.reply == Nack(seqNo, BadCrc32)
                else if 0x2000_0000 <= ReadU32(mem, at) < 0x2003_0000
                        && c.target <= ReadU32(mem, at + 4) < c.target + 384 * 1024
                then s.reply == Ack(seqNo) else s.reply == Nack(seqNo, BadVector))
            && s.mem == mem && s.meta == m && !s.reset
            && s.ctx == (if s.reply.Ack? then c.(expected := Next16(c.expected)) else c)
  {
    hide Crc32, ReadU32, ReadU16;
  }

  // ---- COMMIT ----

  /** A COMMIT leaves everything of the metadata but the target's entry, the pending slot, attempts and number. */
  lemma ProposalExact(c: Ctx, m: Meta)
    requires IsSlotBase(c.target)
    ensures var w, pending: Image := Proposed(c, m), Image(c.version, c.size, c.crc, 2);
            && w.seqNo == Next16(m.seqNo) && w.attempts == 0
            && (if c.target == 0x0808_0000 then w.pending == 1 && w.imageB == pending && w.imageA == m.imageA
                else w.pending == 0 && w.imageA == pending && w.imageB == m.imageB)
            && w == Meta(m.magic, m.schema, w.seqNo, m.active, w.pending, m.confirmed, 0, w.imageA, w.imageB,
                         m.rollbacks, m.minVersion, m.lastError, m.crc)
  {
  }

  /** A COMMIT in a session: in order and with room in flash it is acknowledged and restarts the device. */
  lemma CommitAnswered(mem: seq<byte>, c: Ctx, m: Meta, p: seq<byte>, ops: nat)
    requires |mem| == FLASH_SIZE && c.active && |p| >= 2
    ensures var s, seqNo := Commit(mem, c, m, p, ops), ReadU16(p, 0);
            && (if seqNo != c.expected then s == Step(mem, c, m, Nack(seqNo, BadPayload), false)
                else if s.reset then s.reply == Ack(seqNo) && s.meta == Proposed(c, m)
                else s.reply == Nack(seqNo, MetaCommitFailed) && s.meta == m && s.ctx == c)
            && (seqNo == c.expected ==>
                  && SlotsSame(mem, s.mem) && (s.reset <==> ops >= CommitOps(LogOf(mem)))
                  && LogOf(s.mem) == LogAfter(LogOf(mem), ToStore(Proposed(c, m), true), ops))
  {
    hide Proposed, LogOf, Store, ReadU16, ToStore;
    if ReadU16(p, 0) == c.expected {
      StoreEffect(mem, Proposed(c, m), true, ops);
      StoreReports(mem, Proposed(c, m), ops);
    }
  }

  lemma StoreReports(mem: seq<byte>, m: Meta, ops: nat)
    requires |mem| == FLASH_SIZE
    ensures Store(mem, m, true, ops).1 <==> ops >= CommitOps(LogOf(mem))
  {
  }

  // ---- Everything else ----

  /** Frames too short, or without a session, are refused with number 0; the version query reports both slots. */
  lemma OthersAnswered(mem: seq<byte>, c: Ctx, m: Meta, f: Frame, ops: nat)
    requires |mem| == FLASH_SIZE && CtxOk(c)
    ensures var s, n := Handle(mem, c, m, f, ops), |f.payload|;
            && (f.kind == 0x31 && n < 12 ==> s == Step(mem, c, m, Nack(0, BadPayload), false))
            && (f.kind == 0x32 && (!c.active || n < 8) ==> s == Step(mem, c, m, Nack(0, BadPayload), false))
            && (f.kind == 0x33 && (!c.active || n < 6) ==> s == Step(mem, c, m, Nack(0, BadPayload), false))
            && (f.kind == 0x34 && (!c.active || n < 2) ==> s == Step(mem, c, m, Nack(0, BadPayload), false))
            && (f.kind == 0x37 ==> s == Step(mem, c, m, Versions(m.imageA.version, m.imageB.version), false))
            && (s.reply == Silence <==> f.kind !in {0x31, 0x32, 0x33, 0x34, 0x35, 0x37})
            && (s.reply == Silence ==> s.mem == mem && s.ctx == c && s.meta == m && !s.reset)
  {
  }

  lemma DefaultValid()
    ensures Valid(DefaultMeta())
  {
    var m := DefaultMeta();
    assert m.(crc := 0).(crc := m.crc) == m;
  }

  /** The factory default: both versions 0, nothing to boot, and slot B open to an image of any version. */
  lemma FactoryDevice(mem: seq<byte>, c: Ctx, p: seq<byte>, ops: nat)
    requires |mem| == FLASH_SIZE && CtxOk(c)
    ensures var m := DefaultMeta();
            && Decide(mem, m, ops) == Decision(mem, m, None) && Valid(m) && m.seqNo == 1
            && Handle(mem, c, m, Frame(0x37, []), ops).reply == Versions(0, 0)
            && (|p| >= 12 && 0 < ReadU32(p, 2) <= 384 * 1024 && 0 < ReadU16(p, 10) <= 246 && ops >= 3
                && (|p| >= 16 ==> ReadU32(p, 12) == 0x0808_0000) ==>
                  Prepare(mem, c, m, p, ops).reply == Ack(ReadU16(p, 0))
                  && Prepare(mem, c, m, p, ops).ctx.target == 0x0808_0000)
  {
    hide Checksum, ReadU32, ReadU16;
    DefaultValid();
    DefaultSane();
    OthersAnswered(mem, c, DefaultMeta(), Frame(0x37, []), ops);
    if |p| >= 12 { PrepareAnswered(mem, c, DefaultMeta(), p, ops); }
    hide Prepare, Handle;
  }
}
