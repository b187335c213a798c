/** The OTA session: what each downlink frame does to flash, to the session and to the metadata in RAM. */
module Session {
  import opened Bytes
  import opened Crc
  import opened Flash
  import opened MetaRecord
  import opened MetaLog
  import opened MetaStore

  const OTA_PREPARE: byte := 0x31
  const OTA_DATA: byte := 0x32
  const OTA_VERIFY: byte := 0x33
  const OTA_COMMIT: byte := 0x34
  const OTA_ABORT: byte := 0x35
  const GET_VERSION: byte := 0x37

  const MAX_CHUNK: nat := 246

  datatype Error =
    | BadPayload | BadChunkSize | BadTarget | EraseFailed | BadOffset
    | WriteFailed | BadCrc32 | BadVector | MetaCommitFailed | VersionRollback

  datatype Reply = Ack(seqNo: u16) | Nack(seqNo: u16, error: Error) | Versions(a: u32, b: u32) | Silence

  datatype Ctx = Ctx(active: bool, expected: u16, target: u32, size: u32, crc: u32,
                     chunk: u16, version: u32, offset: u32)

  const IDLE := Ctx(false, 0, 0, 0, 0, 0, 0, 0)

  /** A frame whose checksum has been accepted: at most 254 payload bytes. */
  datatype Frame = Frame(kind: byte, payload: seq<byte>)

  /** Handler result. `reset` is set when the loader restarts the device. */
  datatype Step = Step(mem: seq<byte>, ctx: Ctx, meta: Meta, reply: Reply, reset: bool)

  /** While a session is active its write position lies in flash. */
  predicate CtxOk(c: Ctx) {
    c.active ==> IsSlotBase(c.target) && Index(c.target) + c.offset <= FLASH_SIZE
  }

  function SlotBase(slot: byte): (base: u32)
    ensures IsSlotBase(base)
  {
    if slot == SLOT_B then SLOT_B_BASE else SLOT_A_BASE
  }

  function SlotOf(base: u32): byte {
    if base == SLOT_B_BASE then SLOT_B else SLOT_A
  }

  function SlotAt(slot: byte): (at: nat)
    ensures SECTOR_AT + META_SIZE <= at && at + SLOT_SIZE <= FLASH_SIZE
    ensures at == Index(SlotBase(slot))
  {
    if slot == SLOT_B then 0x8_0000 else 0x2_0000
  }

  function Next16(x: u16): u16 {
    (x + 1) % 0x1_0000
  }

  // ---- PREPARE ----

  function PickTarget(m: Meta): u32 {
    if m.active == SLOT_A then SLOT_B_BASE else SLOT_A_BASE
  }

  predicate Dead(state: u32) {
    state == IMG_INVALID || state == IMG_ROLLBACK
  }

  predicate TargetAllowed(m: Meta, target: u32) {
    if !IsSlotBase(target) then false
    else if Dead(m.imageA.state) && Dead(m.imageB.state) then true
    else if m.active == SLOT_NONE || m.confirmed == SLOT_NONE then true
    else
      && !(m.active == SLOT_A && target == SLOT_A_BASE)
      && !(m.active == SLOT_B && target == SLOT_B_BASE)
      && !(m.confirmed == SLOT_A && target == SLOT_A_BASE)
      && !(m.confirmed == SLOT_B && target == SLOT_B_BASE)
  }

  /** The session fields a PREPARE overwrites before it looks at them. */
  function Announced(c: Ctx, p: seq<byte>): Ctx
    requires |p| >= 12
  {
    c.(size := ReadU32(p, 2), crc := ReadU32(p, 6), chunk := ReadU16(p, 10),
       version := if |p| >= 20 then ReadU32(p, 16) else 0)
  }

  function Target(m: Meta, p: seq<byte>): u32
    requires |p| >= 12
  {
    if |p| >= 16 then ReadU32(p, 12) else PickTarget(m)
  }

  /** Why a PREPARE of at least twelve bytes is refused before anything is erased. */
  function PrepareObjection(c: Ctx, m: Meta, target: u32): Option<Error> {
    if c.size == 0 || c.size > SLOT_SIZE then Some(BadPayload)
    else if c.chunk == 0 || c.chunk > MAX_CHUNK then Some(BadChunkSize)
    else if !TargetAllowed(m, target) then Some(BadTarget)
    else if c.version != 0 && c.version < MinAllowed(m) then Some(VersionRollback)
    else None
  }

  function Prepare(mem: seq<byte>, c: Ctx, m: Meta, p: seq<byte>, ops: nat): (r: Step)
    requires |mem| == FLASH_SIZE
    ensures |r.mem| == FLASH_SIZE
  {
    if |p| < 12 then Step(mem, c, m, Nack(0, BadPayload), false)
    else
      var seqNo, c', target := ReadU16(p, 0), Announced(c, p), Target(m, p);
      var objection := PrepareObjection(c', m, target);
      if objection.Some? then Step(mem, c', m, Nack(seqNo, objection.value), false)
      else
        var mem' := Wiped(mem, Index(target), SLOT_SECTOR * Min(ops, 3));
        if ops < 3 then Step(mem', c', m, Nack(seqNo, EraseFailed), false)
        else
          Step(mem', Ctx(true, Next16(seqNo), target, c'.size, c'.crc, c'.chunk, c'.version, 0), m, Ack(seqNo), false)
  }

  // ---- DATA ----

  function DataSeq(p: seq<byte>): u16
    requires |p| >= 8
  {
    ReadU16(p, 0)
  }

  function DataOffset(p: seq<byte>): u32
    requires |p| >= 8
  {
    ReadU32(p, 2)
  }

  function DataLen(p: seq<byte>): u16
    requires |p| >= 8
  {
    ReadU16(p, 6)
  }

  /** Ends at the write position under the sequence number just consumed: acknowledged, not written. */
  predicate IsDuplicate(c: Ctx, p: seq<byte>)
    requires |p| >= 8
  {
    && DataSeq(p) == (c.expected - 1) % 0x1_0000
    && DataLen(p) == |p| - 8
    && (DataOffset(p) + DataLen(p)) % 0x1_0000_0000 == c.offset
  }

  function DataObjection(c: Ctx, p: seq<byte>): Option<Error>
    requires |p| >= 8
  {
    if DataSeq(p) != c.expected then Some(BadOffset)
    else if DataLen(p) != |p| - 8 || DataLen(p) > c.chunk then Some(BadPayload)
    else if DataOffset(p) != c.offset || (DataOffset(p) + DataLen(p)) % 0x1_0000_0000 > c.size then Some(BadOffset)
    else None
  }

  function Data(mem: seq<byte>, c: Ctx, m: Meta, p: seq<byte>, ops: nat): (r: Step)
    requires |mem| == FLASH_SIZE && CtxOk(c)
    ensures |r.mem| == FLASH_SIZE && CtxOk(r.ctx)
  {
    if !c.active || |p| < 8 then Step(mem, c, m, Nack(0, BadPayload), false)
    else if IsDuplicate(c, p) then Step(mem, c, m, Ack(DataSeq(p)), false)
    else
      var objection := DataObjection(c, p);
      if objection.Some? then Step(mem, c, m, Nack(DataSeq(p), objection.value), false)
      else
        var at, d := Index(c.target) + c.offset, p[8..];
        var n := Min(ops, |d|);
        var mem' := Programmed(mem, at, d, n);
        if !WriteReports(mem, at, d, n) then Step(mem', c, m, Nack(DataSeq(p), WriteFailed), false)
        else
          WriteFits(mem, at, d, n);
          Step(mem', c.(offset := c.offset + |d|, expected := Next16(c.expected)), m, Ack(DataSeq(p)), false)
  }

  // ---- VERIFY ----

  /** The loader's own view of a plausible vector table. */
  predicate LoaderVectorOk(mem: seq<byte>, base: u32)
    requires |mem| == FLASH_SIZE && IsSlotBase(base)
  {
    var sp, pc := ReadU32(mem, Index(base)), ReadU32(mem, Index(base) + 4);
    0x2000_0000 <= sp < 0x2003_0000 && base <= pc < base + SLOT_SIZE
  }

  function VerifyObjection(mem: seq<byte>, c: Ctx, p: seq<byte>): Option<Error>
    requires |mem| == FLASH_SIZE && CtxOk(c) && c.active && |p| >= 6
  {
    if ReadU16(p, 0) != c.expected || ReadU32(p, 2) != c.crc || c.offset != c.size then Some(BadPayload)
    else if Crc32(mem[Index(c.target)..Index(c.target) + c.size]) != c.crc then Some(BadCrc32)
    else if !LoaderVectorOk(mem, c.target) then Some(BadVector)
    else None
  }

  function Verify(mem: seq<byte>, c: Ctx, m: Meta, p: seq<byte>): Step
    requires |mem| == FLASH_SIZE && CtxOk(c)
  {
    if !c.active || |p| < 6 then Step(mem, c, m, Nack(0, BadPayload), false)
    else
      var objection := VerifyObjection(mem, c, p);
      if objection.Some? then Step(mem, c, m, Nack(ReadU16(p, 0), objection.value), false)
      else Step(mem, c.(expected := Next16(c.expected)), m, Ack(ReadU16(p, 0)), false)
  }

  // ---- COMMIT ----

  /** The metadata a COMMIT proposes: the target pending and untried. */
  function Proposed(c: Ctx, m: Meta): Meta {
    var slot := SlotOf(c.target);
    WithImage(m, slot, Image(c.version, c.size, c.crc, IMG_PENDING))
      .(pending := slot, attempts := 0, seqNo := Next16(m.seqNo))
  }

  /** Flash after committing m, and whether the commit reports success. */
  function Store(mem: seq<byte>, m: Meta, inLoader: bool, ops: nat): (r: (seq<byte>, bool))
    requires |mem| == FLASH_SIZE
    ensures |r.0| == FLASH_SIZE
  {
    (WithSector(mem, Committed(SectorOf(mem), ToStore(m, inLoader), ops)), ops >= CommitOps(LogOf(mem)))
  }

  function Commit(mem: seq<byte>, c: Ctx, m: Meta, p: seq<byte>, ops: nat): (r: Step)
    requires |mem| == FLASH_SIZE
    ensures |r.mem| == FLASH_SIZE
  {
    if !c.active || |p| < 2 then Step(mem, c, m, Nack(0, BadPayload), false)
    else if ReadU16(p, 0) != c.expected then Step(mem, c, m, Nack(ReadU16(p, 0), BadPayload), false)
    else
      var (mem', ok) := Store(mem, Proposed(c, m), true, ops);
      if !ok then Step(mem', c, m, Nack(ReadU16(p, 0), MetaCommitFailed), false)
      else Step(mem', c, Proposed(c, m), Ack(ReadU16(p, 0)), true)
  }

  // ---- Dispatch ----

  function Handle(mem: seq<byte>, c: Ctx, m: Meta, f: Frame, ops: nat): (r: Step)
    requires |mem| == FLASH_SIZE && CtxOk(c)
    ensures |r.mem| == FLASH_SIZE && CtxOk(r.ctx)
  {
    if f.kind == OTA_PREPARE then
      Prepare(mem, c, m, f.payload, ops)
    else if f.kind == OTA_DATA then Data(mem, c, m, f.payload, ops)
    else if f.kind == OTA_VERIFY then Verify(mem, c, m, f.payload)
    else if f.kind == OTA_COMMIT then Commit(mem, c, m, f.payload, ops)
    else if f.kind == OTA_ABORT then
      Step(mem, IDLE, m, Ack(if |f.payload| >= 2 then ReadU16(f.payload, 0) else 0), false)
    else if f.kind == GET_VERSION then Step(mem, c, m, Versions(m.imageA.version, m.imageB.version), false)
    else Step(mem, c, m, Silence, false)
  }
}
