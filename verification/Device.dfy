/** The boot loader and the application's confirmation as they run: fields updated in place, flash in an array. */
module Device {
  import opened Bytes
  import opened Crc
  import opened Flash
  import opened MetaRecord
  import opened MetaStore
  import opened Session
  import opened Boot
  import opened Machine

  /** How a run of the OTA loop stands: out of input, idle for too long, or restarting the device. */
  datatype LoopEnd = Waiting | TimedOut | Restarting

  datatype Served = Served(mem: seq<byte>, ctx: Ctx, meta: Meta, idle: nat, end: LoopEnd)

  const READ_TIMEOUT: nat := 100

  predicate KnownKind(kind: byte) {
    kind in {OTA_PREPARE, OTA_DATA, OTA_VERIFY, OTA_COMMIT, OTA_ABORT, GET_VERSION}
  }

  predicate ServedOk(s: Served) {
    |s.mem| == FLASH_SIZE && CtxOk(s.ctx)
  }

  /** One turn of the loop: a frame, or nothing within the read timeout. A limit of 0 never expires. */
  function Turn(s: Served, input: Option<Frame>, ops: nat, limit: nat): (r: Served)
    requires ServedOk(s)
    ensures ServedOk(r)
  {
    if !s.end.Waiting? then s
    else if input.None? then
      var idle := if limit > 0 then s.idle + READ_TIMEOUT else s.idle;
      s.(idle := idle, end := if limit > 0 && idle >= limit then TimedOut else Waiting)
    else
      var r := Handle(s.mem, s.ctx, s.meta, input.value, ops);
      Served(r.mem, r.ctx, r.meta, if KnownKind(input.value.kind) then 0 else s.idle,
             if r.reset then Restarting else Waiting)
  }

  function Serve(s: Served, inputs: seq<Option<Frame>>, ops: seq<nat>, limit: nat): (r: Served)
    requires ServedOk(s) && |ops| == |inputs|
    ensures ServedOk(r)
    decreases |inputs|
  {
    if inputs == [] then s
    else
      var k := |inputs| - 1;
      Turn(Serve(s, inputs[..k], ops[..k], limit), inputs[k], ops[k], limit)
  }

  /** The machine events of the frames among the inputs. */
  function EventsOf(inputs: seq<Option<Frame>>, ops: seq<nat>): (es: seq<Event>)
    requires |ops| == |inputs|
  {
    if inputs == [] then []
    else
      var k := |inputs| - 1;
      EventsOf(inputs[..k], ops[..k]) +
      (if inputs[k].Some? then [Event(Receive(inputs[k].value), ops[k], false)] else [])
  }

  function StateOf(s: Served, stuck: bool): (st: State)
    requires ServedOk(s)
    ensures StateOk(st)
  {
    State(s.mem, if s.end.Restarting? then Off else Loader(s.meta, s.ctx, stuck))
  }

  /** Exactly the frames that are answered end a silence. */
  lemma KnownIsAnswered(mem: seq<byte>, c: Ctx, m: Meta, f: Frame, ops: nat)
    requires |mem| == FLASH_SIZE && CtxOk(c)
    ensures KnownKind(f.kind) <==> !Handle(mem, c, m, f, ops).reply.Silence?
  {
  }

  /** As long as it does not time out, the loop is a run of the machine. */
  lemma {:induction false} ServeRuns(s: Served, inputs: seq<Option<Frame>>, ops: seq<nat>, limit: nat, stuck: bool)
    requires ServedOk(s) && |ops| == |inputs| && !Serve(s, inputs, ops, limit).end.TimedOut?
    ensures Run(StateOf(s, stuck), EventsOf(inputs, ops)) == StateOf(Serve(s, inputs, ops, limit), stuck)
    decreases |inputs|
  {
    if inputs != [] {
      var k := |inputs| - 1;
      var before, es := Serve(s, inputs[..k], ops[..k], limit), EventsOf(inputs[..k], ops[..k]);
      assert Serve(s, inputs, ops, limit) == Turn(before, inputs[k], ops[k], limit);
      ServeRuns(s, inputs[..k], ops[..k], limit, stuck);
      if inputs[k].Some? {
        assert (es + [Event(Receive(inputs[k].value), ops[k], false)])[..|es|] == es;
        TurnReacts(before, inputs[k].value, ops[k], limit, stuck);
      } else {
        assert es + [] == es;
      }
    }
  }

  lemma TurnReacts(s: Served, f: Frame, ops: nat, limit: nat, stuck: bool)
    requires ServedOk(s) && !s.end.TimedOut?
    ensures React(StateOf(s, stuck), Receive(f), ops) == StateOf(Turn(s, Some(f), ops, limit), stuck)
  {
    hide Handle, Decide, PowerUp, Confirm;
  }

  /** Milliseconds of silence since the last frame of a known kind. */
  function Silence(inputs: seq<Option<Frame>>, before: nat): nat {
    if inputs == [] then before
    else
      var k := |inputs| - 1;
      if inputs[k].None? then Silence(inputs[..k], before) + READ_TIMEOUT
      else if KnownKind(inputs[k].value.kind) then 0
      else Silence(inputs[..k], before)
  }

  /** With no limit, as in the loader that found nothing to boot, the loop never expires and counts nothing. */
  lemma {:induction false} NoLimitNoEnd(s: Served, inputs: seq<Option<Frame>>, ops: seq<nat>)
    requires ServedOk(s) && |ops| == |inputs| && !s.end.TimedOut?
    ensures !Serve(s, inputs, ops, 0).end.TimedOut? && Serve(s, inputs, ops, 0).idle <= s.idle
    decreases |inputs|
  {
    hide Handle, KnownKind;
    if inputs != [] {
      var k := |inputs| - 1;
      NoLimitNoEnd(s, inputs[..k], ops[..k]);
    }
  }

  /** After k inputs the device has not been restarted, and the silence has reached the limit. */
  predicate SilentAt(s: Served, inputs: seq<Option<Frame>>, ops: seq<nat>, limit: nat, k: nat)
    requires ServedOk(s) && |ops| == |inputs| && k <= |inputs|
  {
    !Serve(s, inputs[..k], ops[..k], limit).end.Restarting? && Silence(inputs[..k], s.idle) >= limit
  }

  /** The loop expires exactly when, before any restart, the silence since the last known frame reaches the limit. */
  lemma {:induction false} IdleCountsSilence(s: Served, inputs: seq<Option<Frame>>, ops: seq<nat>, limit: nat)
    requires ServedOk(s) && |ops| == |inputs| && limit > 0 && s.end.Waiting? && s.idle < limit
    ensures var r := Serve(s, inputs, ops, limit);
            && (r.end.TimedOut? <==> exists k :: 0 <= k <= |inputs| && SilentAt(s, inputs, ops, limit, k))
            && (r.end.Waiting? ==> r.idle == Silence(inputs, s.idle) < limit)
    decreases |inputs|
  {
    hide Handle, KnownKind;
    if inputs == [] {
      assert inputs[..0] == inputs && ops[..0] == ops;
    } else {
      var n := |inputs| - 1;
      IdleCountsSilence(s, inputs[..n], ops[..n], limit);
      forall k | 0 <= k <= n
        ensures SilentAt(s, inputs, ops, limit, k) <==> SilentAt(s, inputs[..n], ops[..n], limit, k)
      {
        assert inputs[..n][..k] == inputs[..k] && ops[..n][..k] == ops[..k];
      }
      SilentAtEnd(s, inputs, ops, limit);
      if exists k :: 0 <= k <= |inputs| && SilentAt(s, inputs, ops, limit, k) {
        var k :| 0 <= k <= |inputs| && SilentAt(s, inputs, ops, limit, k);
        assert k <= n ==> SilentAt(s, inputs[..n], ops[..n], limit, k);
      }
    }
  }

  lemma {:induction false} SilentAtEnd(s: Served, inputs: seq<Option<Frame>>, ops: seq<nat>, limit: nat)
    requires ServedOk(s) && |ops| == |inputs|
    ensures SilentAt(s, inputs, ops, limit, |inputs|)
            <==> !Serve(s, inputs, ops, limit).end.Restarting? && Silence(inputs, s.idle) >= limit
  {
    assert inputs[..|inputs|] == inputs && ops[..|ops|] == ops;
  }

  predicate Headed(m: Meta) {
    m.magic == META_MAGIC && m.schema == META_SCHEMA
  }

  /** Power-up: the newest metadata, or the default written back to heal the sector. */
  method LoadOrHeal(chip: Chip) returns (meta: Meta, ghost ops: nat)
    requires chip.Valid()
    modifies chip.mem
    ensures Headed(meta) && Started(chip.mem[..], meta) == PowerUp(old(chip.mem[..]), ops)
  {
    ops := 0;
    LogHeld(chip.mem[..]);
    var latest := FindLatest(chip, LogOf(chip.mem[..]));
    if latest.Some? {
      StoredIsValid(chip.mem[..]);
      return latest.value, 0;
    }
    var ok;
    meta := DefaultMeta();
    ok, ops := CommitMeta(chip, meta);
  }

  class BootLoader {
    const chip: Chip
    var ctx: Ctx
    var meta: Meta

    predicate Valid()
      reads this
    {
      chip.Valid() && CtxOk(ctx) && Headed(meta)
    }

    constructor (c: Chip, m: Meta)
      requires c.Valid() && Headed(m)
      ensures Valid() && chip == c && ctx == IDLE && meta == m
    {
      chip, ctx, meta := c, IDLE, m;
    }

    // ---- Frame handlers ----

    method HandlePrepare(p: seq<byte>) returns (reply: Reply, ghost ops: nat)
      requires Valid()
      modifies this, chip.mem
      ensures Valid()
      ensures Step(chip.mem[..], ctx, meta, reply, false)
           == Prepare(old(chip.mem[..]), old(ctx), old(meta), p, ops)
    {
      ops := 0;
      if |p| < 12 {
        return Nack(0, BadPayload), 0;
      }
      var seqNo := ReadU16(p, 0);
      ctx := ctx.(size := ReadU32(p, 2));
      ctx := ctx.(crc := ReadU32(p, 6));
      ctx := ctx.(chunk := ReadU16(p, 10));
      ctx := ctx.(version := 0);
      var target := PickTarget(meta);
      if |p| >= 16 {
        target := ReadU32(p, 12);
      }
      if |p| >= 20 {
        ctx := ctx.(version := ReadU32(p, 16));
      }
      if ctx.size == 0 || ctx.size > SLOT_SIZE {
        return Nack(seqNo, BadPayload), 0;
      }
      if ctx.chunk == 0 || ctx.chunk > MAX_CHUNK {
        return Nack(seqNo, BadChunkSize), 0;
      }
      var allowed := TargetAllowed(meta, target);
      if !allowed {
        return Nack(seqNo, BadTarget), 0;
      }
      if ctx.version != 0 && ctx.version < MinAllowed(meta) {
        return Nack(seqNo, VersionRollback), 0;
      }
      var erased;
      erased, ops := chip.EraseSlot(target);
      if !erased {
        return Nack(seqNo, EraseFailed), ops;
      }
      ctx := IDLE;
      ctx := ctx.(active := true);
      ctx := ctx.(expected := Next16(seqNo));
      ctx := ctx.(target := target);
      ctx := ctx.(size := ReadU32(p, 2));
      ctx := ctx.(crc := ReadU32(p, 6));
      ctx := ctx.(chunk := ReadU16(p, 10));
      if |p| >= 20 {
        ctx := ctx.(version := ReadU32(p, 16));
      }
      ctx := ctx.(offset := 0);
      reply := Ack(seqNo);
    }

    method HandleData(p: seq<byte>) returns (reply: Reply, ghost ops: nat)
      requires Valid() && |p| <= 254
      modifies this`ctx, chip.mem
      ensures Valid()
      ensures Step(chip.mem[..], ctx, meta, reply, false)
           == Data(old(chip.mem[..]), old(ctx), meta, p, ops)
    {
      hide ReadU16, ReadU32, Programmed, WriteReports, Headed;
      ops := 0;
      if !ctx.active || |p| < 8 {
        return Nack(0, BadPayload), 0;
      }
      var seqNo, offset, chunkLen := ReadU16(p, 0), ReadU32(p, 2), ReadU16(p, 6);
      var prevSeq := (ctx.expected - 1) % 0x1_0000;
      if seqNo == prevSeq && chunkLen == |p| - 8 && (offset + chunkLen) % 0x1_0000_0000 == ctx.offset {
        return Ack(seqNo), 0;
      }
      if seqNo != ctx.expected {
        return Nack(seqNo, BadOffset), 0;
      }
      if chunkLen != |p| - 8 || chunkLen > ctx.chunk {
        return Nack(seqNo, BadPayload), 0;
      }
      if offset != ctx.offset || (offset + chunkLen) % 0x1_0000_0000 > ctx.size {
        return Nack(seqNo, BadOffset), 0;
      }
      var written;
      written, ops := chip.Write(ctx.target + offset, p[8..]);
      if !written {
        return Nack(seqNo, WriteFailed), ops;
      }
      WriteFits(old(chip.mem[..]), Index(ctx.target) + offset, p[8..], ops);
      ctx := ctx.(offset := ctx.offset + chunkLen);
      ctx := ctx.(expected := Next16(ctx.expected));
      reply := Ack(seqNo);
    }

    method HandleVerify(p: seq<byte>) returns (reply: Reply)
      requires Valid()
      modifies this`ctx
      ensures Valid()
      ensures Step(chip.mem[..], ctx, meta, reply, false) == Verify(chip.mem[..], old(ctx), meta, p)
    {
      if !ctx.active || |p| < 6 {
        return Nack(0, BadPayload);
      }
      var seqNo, imageCrc := ReadU16(p, 0), ReadU32(p, 2);
      if seqNo != ctx.expected || imageCrc != ctx.crc || ctx.offset != ctx.size {
        return Nack(seqNo, BadPayload);
      }
      var at := Index(ctx.target);
      var crc := ComputeCrc32(chip.mem[at..at + ctx.size]);
      assert chip.mem[at..at + ctx.size] == chip.mem[..][at..at + ctx.size];
      if crc != ctx.crc {
        return Nack(seqNo, BadCrc32);
      }
      if !LoaderVectorOk(chip.mem[..], ctx.target) {
        return Nack(seqNo, BadVector);
      }
      ctx := ctx.(expected := Next16(ctx.expected));
      reply := Ack(seqNo);
    }

    method HandleCommit(p: seq<byte>) returns (reply: Reply, reset: bool, ghost ops: nat)
      requires Valid()
      modifies this`meta, chip.mem
      ensures Valid()
      ensures Step(chip.mem[..], ctx, meta, reply, reset)
           == Session.Commit(old(chip.mem[..]), ctx, old(meta), p, ops)
    {
      ops := 0;
      if !ctx.active || |p| < 2 {
        return Nack(0, BadPayload), false, 0;
      }
      var seqNo := ReadU16(p, 0);
      if seqNo != ctx.expected {
        return Nack(seqNo, BadPayload), false, 0;
      }
      var next := meta;
      var slot := if ctx.target == SLOT_B_BASE then SLOT_B else SLOT_A;
      next := next.(pending := slot);
      next := next.(attempts := 0);
      if slot == SLOT_A {
        next := next.(imageA := Image(ctx.version, ctx.size, ctx.crc, IMG_PENDING));
      } else {
        next := next.(imageB := Image(ctx.version, ctx.size, ctx.crc, IMG_PENDING));
      }
      next := next.(seqNo := (next.seqNo + 1) % 0x1_0000);
      assert next == Proposed(ctx, meta);
      var stored;
      stored, ops := CommitMeta(chip, next);
      if !stored {
        return Nack(seqNo, MetaCommitFailed), false, ops;
      }
      meta := next;
      reply, reset := Ack(seqNo), true;
    }

    method HandleFrame(f: Frame) returns (reply: Reply, reset: bool, ghost ops: nat)
      requires Valid() && |f.payload| <= 254
      modifies this, chip.mem
      ensures Valid()
      ensures Step(chip.mem[..], ctx, meta, reply, reset)
           == Handle(old(chip.mem[..]), old(ctx), old(meta), f, ops)
    {
      reset, ops := false, 0;
      if f.kind == OTA_PREPARE {
        reply, ops := HandlePrepare(f.payload);
      } else if f.kind == OTA_DATA {
        reply, ops := HandleData(f.payload);
      } else if f.kind == OTA_VERIFY {
        reply := HandleVerify(f.payload);
      } else if f.kind == OTA_COMMIT {
        reply, reset, ops := HandleCommit(f.payload);
      } else if f.kind == OTA_ABORT {
        var seqNo := if |f.payload| >= 2 then ReadU16(f.payload, 0) else 0;
        ctx := IDLE;
        reply := Ack(seqNo);
      } else if f.kind == GET_VERSION {
        reply := Versions(meta.imageA.version, meta.imageB.version);
      } else {
        reply := Silence;
      }
    }

    /** Serves frames until a COMMIT restarts the device, the link stays silent too long, or input ends. */
    method OtaLoop(inputs: seq<Option<Frame>>, limit: nat) returns (end: LoopEnd, ghost ops: seq<nat>)
      requires Valid() && forall f | f in inputs && f.Some? :: |f.value.payload| <= 254
      modifies this, chip.mem
      ensures Valid() && |ops| == |inputs|
      ensures exists idle: nat ::
        Served(chip.mem[..], ctx, meta, idle, end)
        == Serve(Served(old(chip.mem[..]), IDLE, old(meta), 0, Waiting), inputs, ops, limit)
    {
      ctx := IDLE;
      ghost var start := Served(chip.mem[..], IDLE, meta, 0, Waiting);
      var idle: nat := 0;
      end, ops := Waiting, [];
      var i := 0;
      while i < |inputs|
        invariant i <= |inputs| && |ops| == i && Valid()
        invariant Served(chip.mem[..], ctx, meta, idle, end) == Serve(start, inputs[..i], ops, limit)
      {
        assert inputs[..i + 1][..i] == inputs[..i];
        ghost var spent: nat := 0;
        if end.Waiting? {
          if inputs[i].None? {
            if limit > 0 {
              idle := idle + READ_TIMEOUT;
            }
            if limit > 0 && idle >= limit {
              end := TimedOut;
            }
          } else {
            assert inputs[i] in inputs;
            var reply, reset;
            reply, reset, spent := HandleFrame(inputs[i].value);
            if KnownKind(inputs[i].value.kind) {
              idle := 0;
            }
            if reset {
              end := Restarting;
            }
          }
        }
        assert (ops + [spent])[..i] == ops;
        ops := ops + [spent];
        i := i + 1;
      }
      assert inputs[..i] == inputs;
    }

    // ---- The boot decision ----

    method SlotImageValid(slot: byte) returns (ok: bool)
      requires Valid()
      ensures ok == ImageOk(chip.mem[..], meta, slot)
    {
      var image := ImageOf(meta, slot);
      if image.size == 0 || image.size > SLOT_SIZE {
        return false;
      }
      var vectorOk := BootVectorOk(chip.mem[..], SlotBase(slot));
      if !vectorOk {
        return false;
      }
      var at := SlotAt(slot);
      var crc := ComputeCrc32(chip.mem[at..at + image.size]);
      assert chip.mem[at..at + image.size] == chip.mem[..][at..at + image.size];
      ok := crc == image.crc;
    }

    /** Gives up the pending slot. */
    method RollBackPending() returns (ghost ops: nat)
      requires Valid()
      modifies this`meta, chip.mem
      ensures Valid() && meta == RolledBack(old(meta))
      ensures chip.mem[..] == Store(old(chip.mem[..]), meta, true, ops).0
    {
      meta := WithState(meta, meta.pending, IMG_ROLLBACK);
      meta := meta.(pending := SLOT_NONE);
      meta := meta.(rollbacks := (meta.rollbacks + 1) % 0x1_0000_0000);
      meta := meta.(attempts := 0);
      assert meta == RolledBack(old(meta));
      var stored;
      stored, ops := CommitMeta(chip, meta);
    }

    /** Counts one more attempt at the pending slot. */
    method CountAttempt() returns (ghost ops: nat)
      requires Valid() && meta.attempts < MAX_BOOT_ATTEMPTS
      modifies this`meta, chip.mem
      ensures Valid() && meta == Tried(old(meta))
      ensures chip.mem[..] == Store(old(chip.mem[..]), meta, true, ops).0
    {
      meta := meta.(attempts := meta.attempts + 1);
      var stored;
      stored, ops := CommitMeta(chip, meta);
    }

    /** The active slot if its image checks out, else the confirmed one, else none. */
    method FallBack() returns (jump: Option<byte>)
      requires Valid()
      ensures jump == Fallback(chip.mem[..], meta)
    {
      if meta.active == SLOT_A || meta.active == SLOT_B {
        var valid := SlotImageValid(meta.active);
        if valid {
          return Some(meta.active);
        }
      }
      if meta.confirmed == SLOT_A || meta.confirmed == SLOT_B {
        var valid := SlotImageValid(meta.confirmed);
        if valid {
          return Some(meta.confirmed);
        }
      }
      jump := None;
    }

    /** Tries the pending slot or rolls it back, and otherwise falls back. */
    method BootDecision() returns (jump: Option<byte>, ghost ops: nat)
      requires Valid()
      modifies this`meta, chip.mem
      ensures Valid()
      ensures Decision(chip.mem[..], meta, jump) == Decide(old(chip.mem[..]), old(meta), ops)
    {
      ops := 0;
      if meta.pending == SLOT_A || meta.pending == SLOT_B {
        var valid := SlotImageValid(meta.pending);
        if !valid {
          ops := RollBackPending();
        } else if meta.attempts >= MAX_BOOT_ATTEMPTS {
          ops := RollBackPending();
        } else {
          ops := CountAttempt();
          return Some(meta.pending), ops;
        }
      }
      jump := FallBack();
    }
  }

  /** The metadata with the running slot promoted. */
  method Promote(was: Meta, slot: byte) returns (meta: Meta)
    requires IsSlot(slot)
    ensures meta == ConfirmedMeta(was, slot)
  {
    meta := was;
    meta := meta.(active := slot);
    meta := meta.(confirmed := slot);
    meta := meta.(pending := SLOT_NONE);
    meta := meta.(attempts := 0);
    if slot == SLOT_A {
      meta := meta.(imageA := meta.imageA.(state := IMG_CONFIRMED));
      if meta.imageA.version > meta.minVersion {
        meta := meta.(minVersion := meta.imageA.version);
      }
    } else {
      meta := meta.(imageB := meta.imageB.(state := IMG_CONFIRMED));
      if meta.imageB.version > meta.minVersion {
        meta := meta.(minVersion := meta.imageB.version);
      }
    }
    meta := meta.(seqNo := (meta.seqNo + 1) % 0x1_0000);
  }

  /** The application marks the slot it runs from as active and confirmed, if that slot is pending. */
  method ConfirmSlotEarly(chip: Chip, slot: byte) returns (ghost ops: nat)
    requires chip.Valid() && IsSlot(slot)
    modifies chip.mem
    ensures chip.mem[..] == Confirm(old(chip.mem[..]), slot, ops)
  {
    ops := 0;
    LogHeld(chip.mem[..]);
    var loaded := OtaMetaLoad(chip, LogOf(chip.mem[..]));
    if loaded.None? {
      return;
    }
    var meta := loaded.value;
    if meta.pending != slot {
      return;
    }
    if (slot == SLOT_A && meta.imageA.state != IMG_PENDING) || (slot == SLOT_B && meta.imageB.state != IMG_PENDING) {
      return;
    }
    meta := Promote(meta, slot);
    var stored;
    stored, ops := OtaMetaCommit(chip, meta);
  }
}
