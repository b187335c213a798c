/** From power-up through a transfer to the next boot: the device ends up running exactly the image sent. */
module EndToEnd {
  import opened Bytes
  import opened Crc
  import opened Flash
  import opened MetaRecord
  import opened MetaLog
  import opened MetaHistory
  import opened MetaStore
  import opened Session
  import opened Boot
  import opened Machine
  import opened Verdicts
  import opened Safety
  import opened Runs
  import opened Transfer

  // ---- The two vector checks ----

  /** Masking the stack pointer leaves the base of SRAM exactly below 128 KB, given the loader's wider bound. */
  lemma {:induction false} MaskedStackPointer(sp: u32)
    requires 0x2000_0000 <= sp < 0x2003_0000
    ensures And(sp, SP_MASK) == 0x2000_0000 <==> sp < 0x2002_0000
  {
    MaskMeans(sp);
  }

  /** An image VERIFY accepts is bootable exactly when its stack pointer lies below 0x20020000. */
  lemma VerifiedBoots(mem: seq<byte>, base: u32)
    requires |mem| == FLASH_SIZE && IsSlotBase(base) && LoaderVectorOk(mem, base)
    ensures BootVectorOk(mem, base) <==> ReadU32(mem, Index(base)) < 0x2002_0000
  {
    MaskedStackPointer(ReadU32(mem, Index(base)));
  }

  // ---- The session, stage by stage ----

  function ReplyTo(st: State, e: Event): Reply
    requires StateOk(st) && st.phase.Loader? && e.kind.Receive?
  {
    Handle(st.mem, st.phase.ctx, st.phase.meta, e.kind.frame, e.ops).reply
  }

  /** In the loader, with the serial number flash holds. */
  ghost predicate Linked(st: State) {
    && Inv(st) && st.phase.Loader? && !st.phase.stuck
    && var held := Stored(LogOf(st.mem)); held.Some? ==> held.value.seqNo == st.phase.meta.seqNo
  }

  /** A session in progress that has received a prefix of the image. */
  ghost predicate Receiving(st: State, image: seq<byte>, target: u32) {
    && Linked(st)
    && var x := Xfer(st.mem, st.phase.ctx);
       Sending(x) && x.ctx.target == target && x.ctx.size == |image| && Received(x) == image[..x.ctx.offset]
  }

  /** The whole image received, checked and plausible. */
  ghost predicate Verified(st: State, image: seq<byte>, target: u32) {
    && Receiving(st, image, target) && st.phase.ctx.offset == |image| > 0
    && Crc32(image) == st.phase.ctx.crc && LoaderVectorOk(st.mem, target)
  }

  predicate Frames(e: Event, kind: byte) {
    e.kind.Receive? && e.kind.frame.kind == kind && !e.cut
  }

  lemma AfterPowerOn(st: State, on: Event)
    requires Inv(st) && st.phase.Off? && on.kind.PowerOn? && !on.cut && CleanTear(st, on)
    ensures Linked(Next(st, on)) && Next(st, on).phase.ctx == IDLE
  {
    StepPowerOn(st, on, OutsideCompaction(st, on));
    var es := LogOf(st.mem);
    if Stored(es).None? {
      var w := ToStore(DefaultMeta(), true);
      DefaultSane();
      SealedSane(DefaultMeta(), true);
      StoreEffect(st.mem, DefaultMeta(), true, on.ops);
      CommitOutcome(es, w, on.ops, false);
    }
  }

  /** An uncut frame that commits nothing keeps the log and the RAM metadata. */
  lemma FrameKeepsLinked(st: State, e: Event)
    requires Linked(st) && e.kind.Receive? && !e.cut && !CommitAccepted(st.phase.ctx, e.kind.frame)
    requires PrepareContained(st, e)
    ensures Linked(Next(st, e)) && Next(st, e).phase.meta == st.phase.meta
  {
    StepFrame(st, e, true);
    HandleStays(st.mem, st.phase.ctx, st.phase.meta, e.kind.frame, e.ops);
  }

  lemma PrepareAcks(mem: seq<byte>, c: Ctx, m: Meta, f: Frame, ops: nat)
    requires |mem| == FLASH_SIZE && CtxOk(c) && f.kind == OTA_PREPARE && Handle(mem, c, m, f, ops).reply.Ack?
    ensures |f.payload| >= 12 && TargetAllowed(m, Target(m, f.payload))
    ensures var c' := Handle(mem, c, m, f, ops).ctx;
            && c'.active && c'.target == Target(m, f.payload) && c'.offset == 0
            && c'.size == ReadU32(f.payload, 2) && 0 < c'.size <= SLOT_SIZE
    ensures !Handle(mem, c, m, f, ops).reset
  {
    assert Handle(mem, c, m, f, ops) == Prepare(mem, c, m, f.payload, ops);
  }

  lemma AfterPrepare(st: State, e: Event, image: seq<byte>)
    requires Linked(st) && Frames(e, OTA_PREPARE) && ReplyTo(st, e).Ack? && ReadU32(e.kind.frame.payload, 2) == |image|
    ensures Receiving(Next(st, e), image, SlotBase(Other(st.phase.meta.active)))
    ensures 0 < |image| <= SLOT_SIZE
  {
    hide Handle, LogOk, Sane, Next, React, Receiving;
    PrepareAcks(st.mem, st.phase.ctx, st.phase.meta, e.kind.frame, e.ops);
    FrameLeads(st, e);
    AfterPrepareReply(st, e);
    NothingReceived(Next(st, e), image);
  }

  lemma NothingReceived(st: State, image: seq<byte>)
    requires Linked(st) && st.phase.ctx.active && st.phase.ctx.offset == 0 && st.phase.ctx.size == |image| <= SLOT_SIZE
    ensures Receiving(st, image, st.phase.ctx.target)
  {
    hide LogOk, Sane, LogOf;
    assert image[..0] == [];
  }

  /** Where an uncut frame that restarts nothing leads. */
  lemma FrameLeads(st: State, e: Event)
    requires StateOk(st) && st.phase.Loader? && e.kind.Receive? && !e.cut
    requires !Handle(st.mem, st.phase.ctx, st.phase.meta, e.kind.frame, e.ops).reset
    ensures var s := Handle(st.mem, st.phase.ctx, st.phase.meta, e.kind.frame, e.ops);
            Next(st, e) == State(s.mem, Loader(s.meta, s.ctx, st.phase.stuck))
  {
    hide Handle;
  }

  lemma AfterPrepareReply(st: State, e: Event)
    requires Linked(st) && Frames(e, OTA_PREPARE) && ReplyTo(st, e).Ack? && |e.kind.frame.payload| >= 12
    requires TargetAllowed(st.phase.meta, Target(st.phase.meta, e.kind.frame.payload))
    ensures Linked(Next(st, e))
    ensures Target(st.phase.meta, e.kind.frame.payload) == SlotBase(Other(st.phase.meta.active))
  {
    AckedContained(st, e);
    FrameKeepsLinked(st, e);
    TargetIsAway(st.phase.meta, Target(st.phase.meta, e.kind.frame.payload));
  }

  /** A PREPARE that is accepted announces nothing out of bounds. */
  lemma AckedContained(st: State, e: Event)
    requires Linked(st) && Frames(e, OTA_PREPARE) && ReplyTo(st, e).Ack? && |e.kind.frame.payload| >= 12
    ensures PrepareContained(st, e)
  {
    var c, m, f := st.phase.ctx, st.phase.meta, e.kind.frame;
    assert Handle(st.mem, c, m, f, e.ops) == Prepare(st.mem, c, m, f.payload, e.ops);
  }

  lemma AfterData(st: State, e: Event, image: seq<byte>, target: u32)
    requires Receiving(st, image, target) && Frames(e, OTA_DATA) && Carries(e.kind.frame.payload, image)
    ensures Receiving(Next(st, e), image, target) && Next(st, e).phase.meta == st.phase.meta
  {
    FrameKeepsLinked(st, e);
    var d := Delivery(e.kind.frame.payload, e.ops);
    CarriedStep(Xfer(st.mem, st.phase.ctx), st.phase.meta, d, image);
    DeliverStep(Xfer(st.mem, st.phase.ctx), st.phase.meta, d);
    assert Deliver(Xfer(st.mem, st.phase.ctx), st.phase.meta, d) == Xfer(Next(st, e).mem, Next(st, e).phase.ctx);
  }

  lemma {:induction false} AfterAllData(st: State, es: seq<Event>, image: seq<byte>, target: u32)
    requires Receiving(st, image, target)
    requires forall e | e in es :: Frames(e, OTA_DATA) && Carries(e.kind.frame.payload, image)
    ensures Receiving(Run(st, es), image, target) && Run(st, es).phase.meta == st.phase.meta
    decreases |es|
  {
    if es != [] {
      var init := es[..|es| - 1];
      assert es[|es| - 1] in es;
      AfterAllData(st, init, image, target);
      AfterData(Run(st, init), es[|es| - 1], image, target);
    }
  }

  lemma VerifyAcks(mem: seq<byte>, c: Ctx, m: Meta, f: Frame, ops: nat)
    requires |mem| == FLASH_SIZE && CtxOk(c) && c.active && f.kind == OTA_VERIFY && Handle(mem, c, m, f, ops).reply.Ack?
    ensures c.offset == c.size && Crc32(SliceAt(mem, Index(c.target), c.size)) == c.crc
    ensures LoaderVectorOk(mem, c.target)
    ensures Handle(mem, c, m, f, ops).mem == mem
    ensures Handle(mem, c, m, f, ops).ctx == c.(expected := Next16(c.expected))
  {
    assert Handle(mem, c, m, f, ops) == Verify(mem, c, m, f.payload);
  }

  lemma AfterVerify(st: State, e: Event, image: seq<byte>, target: u32)
    requires Receiving(st, image, target) && 0 < |image| && Frames(e, OTA_VERIFY) && ReplyTo(st, e).Ack?
    ensures Verified(Next(st, e), image, target) && Next(st, e).phase.meta == st.phase.meta
  {
    FrameKeepsLinked(st, e);
    VerifyAcks(st.mem, st.phase.ctx, st.phase.meta, e.kind.frame, e.ops);
    VerifiedIs(st, Next(st, e), image, target);
  }

  lemma VerifiedIs(st: State, st': State, image: seq<byte>, target: u32)
    requires Receiving(st, image, target) && 0 < |image| && Linked(st') && st'.mem == st.mem
    requires st'.phase.ctx == st.phase.ctx.(expected := Next16(st.phase.ctx.expected))
    requires st.phase.ctx.offset == st.phase.ctx.size && LoaderVectorOk(st.mem, target)
    requires Crc32(SliceAt(st.mem, Index(target), st.phase.ctx.size)) == st.phase.ctx.crc
    ensures Verified(st', image, target)
  {
    hide Inv, LogOf, Crc32, LoaderVectorOk;
    assert image[..|image|] == image;
  }

  /** An acknowledged COMMIT: the device is off and the next load yields the proposal. */
  lemma AfterCommit(st: State, e: Event)
    requires Linked(st) && Frames(e, OTA_COMMIT) && ReplyTo(st, e).Ack?
    ensures var st' := Next(st, e);
            && Inv(st') && st'.phase.Off? && SlotsSame(st.mem, st'.mem)
            && Effective(st') == ToStore(Proposed(st.phase.ctx, st.phase.meta), true)
            && Stored(LogOf(st'.mem)) == Some(Effective(st'))
  {
    hide Crc32, LoaderVectorOk, Handle, Decide, PowerUp, Confirm;
    var c, m, f := st.phase.ctx, st.phase.meta, e.kind.frame;
    CommitIsAccepted(st.mem, c, m, f, e.ops);
    HandleCommits(st.mem, c, m, f, e.ops);
    StepCommit(st, e, OutsideCompaction(st, e)) by {
      assert CutAt(LogOf(st.mem), e.ops) == RECORD_SIZE;
    }
    ProposedSane(c, m);
    SealedSane(Proposed(c, m), true);
    CommitDone(LogOf(st.mem), ToStore(Proposed(c, m), true), e.ops);
    NextIsNewer(m.seqNo);
  }

  lemma CommitIsAccepted(mem: seq<byte>, c: Ctx, m: Meta, f: Frame, ops: nat)
    requires |mem| == FLASH_SIZE && CtxOk(c) && f.kind == OTA_COMMIT && Handle(mem, c, m, f, ops).reply.Ack?
    ensures CommitAccepted(c, f) && ops >= CommitOps(LogOf(mem))
  {
    assert Handle(mem, c, m, f, ops) == Commit(mem, c, m, f.payload, ops);
  }

  /** The serial number a COMMIT stores is newer, also where it wraps past zero. */
  lemma NextIsNewer(seqNo: u16)
    ensures Newer(if Next16(seqNo) == 0 then 1 else Next16(seqNo), seqNo)
  {
  }

  // ---- The boot that follows ----

  /** The slot's first bytes are the image. */
  ghost predicate Has(mem: seq<byte>, slot: byte, image: seq<byte>)
    requires |mem| == FLASH_SIZE
  {
    |image| <= SLOT_SIZE && SlotBytes(mem, slot)[..|image|] == image
  }

  lemma ReceivedIsHeld(st: State, image: seq<byte>, target: u32)
    requires Verified(st, image, target) && IsSlotBase(target)
    ensures Has(st.mem, SlotOf(target), image)
  {
    hide Inv, Crc32, LoaderVectorOk;
    TakeSlice(st.mem, Index(target), Index(target) + SLOT_SIZE, |image|);
    assert image[..|image|] == image;
  }

  /** The boot check of a pending image that is in its slot with the right size and checksum. */
  lemma ImageChecks(mem: seq<byte>, m: Meta, slot: byte, image: seq<byte>)
    requires |mem| == FLASH_SIZE && IsSlot(slot) && Has(mem, slot, image) && 4 <= |image|
    requires ImageOf(m, slot).size == |image| && ImageOf(m, slot).crc == Crc32(image)
    requires LoaderVectorOk(mem, SlotBase(slot))
    ensures ImageOk(mem, m, slot) <==> ReadU32(image, 0) < 0x2002_0000
  {
    var at := SlotAt(slot);
    VerifiedBoots(mem, SlotBase(slot));
    TakeSlice(mem, at, at + SLOT_SIZE, |image|);
    ReadInSlice(mem, at, at + |image|, 0);
  }

  lemma SameVector(mem: seq<byte>, mem': seq<byte>, slot: byte)
    requires |mem| == FLASH_SIZE && |mem'| == FLASH_SIZE && SlotBytes(mem, slot) == SlotBytes(mem', slot)
    ensures LoaderVectorOk(mem, SlotBase(slot)) == LoaderVectorOk(mem', SlotBase(slot))
  {
    var at := SlotAt(slot);
    ReadInSlice(mem, at, at + SLOT_SIZE, 0);
    ReadInSlice(mem, at, at + SLOT_SIZE, 4);
    ReadInSlice(mem', at, at + SLOT_SIZE, 0);
    ReadInSlice(mem', at, at + SLOT_SIZE, 4);
  }

  /** A device that is off with an untried pending image boots it exactly when its stack pointer is low enough. */
  lemma BootsPending(st: State, on: Event, leave: Event, image: seq<byte>)
    requires Inv(st) && st.phase.Off? && Stored(LogOf(st.mem)) == Some(Effective(st))
    requires var w := Effective(st);
             && w.pending == Other(w.active) && w.attempts == 0
             && Has(st.mem, w.pending, image) && 4 <= |image|
             && ImageOf(w, w.pending).size == |image| && ImageOf(w, w.pending).crc == Crc32(image)
             && LoaderVectorOk(st.mem, SlotBase(w.pending))
    requires on.kind.PowerOn? && !on.cut && leave.kind.Leave? && !leave.cut
    ensures var booted := Next(Next(st, on), leave);
            && Has(booted.mem, Effective(st).pending, image)
            && (booted.phase == Running(Effective(st).pending) <==> ReadU32(image, 0) < 0x2002_0000)
  {
    hide Crc32, LoaderVectorOk, ImageOk, Decided, LogAfter, Sane, LogOk, CutAt, Collides;
    var w := Effective(st);
    ImageChecks(st.mem, w, w.pending, image);
    var loading := Next(st, on);
    assert loading == State(st.mem, Loader(w, IDLE, false));
    LeaveEnds(loading, leave.ops);
    StoreEffect(st.mem, Decided(st.mem, w), true, leave.ops);
    SlotsSameBytes(st.mem, Next(loading, leave).mem, w.pending);
  }

  /** A verified image whose COMMIT is acknowledged is what the next boot runs, if its stack pointer is low enough. */
  lemma CommittedBoots(st: State, commit: Event, on: Event, leave: Event, image: seq<byte>)
    requires st.phase.Loader? && 4 <= |image| && Verified(st, image, SlotBase(Other(st.phase.meta.active)))
    requires Frames(commit, OTA_COMMIT) && ReplyTo(st, commit).Ack?
    requires on.kind.PowerOn? && !on.cut && leave.kind.Leave? && !leave.cut
    ensures var committed := Next(st, commit);
            var booted := Next(Next(committed, on), leave);
            var slot := Other(st.phase.meta.active);
            && committed.phase.Off? && Effective(committed).pending == slot
            && Has(booted.mem, slot, image)
            && (booted.phase == Running(slot) <==> ReadU32(image, 0) < 0x2002_0000)
  {
    hide LogOk, LogOf, Sane, Crc32, LoaderVectorOk, Handle, Has, Next, Stored;
    var slot := Other(st.phase.meta.active);
    AfterCommit(st, commit);
    ReceivedIsHeld(st, image, SlotBase(slot));
    SlotsSameBytes(st.mem, Next(st, commit).mem, slot);
    SameVector(st.mem, Next(st, commit).mem, slot);
    ProposedPending(st.phase.ctx, st.phase.meta, slot);
    SameHas(st.mem, Next(st, commit).mem, slot, image);
    BootsPending(Next(st, commit), on, leave, image);
  }

  lemma SameHas(mem: seq<byte>, mem': seq<byte>, slot: byte, image: seq<byte>)
    requires |mem| == FLASH_SIZE && |mem'| == FLASH_SIZE && SlotBytes(mem, slot) == SlotBytes(mem', slot)
    ensures Has(mem, slot, image) <==> Has(mem', slot, image)
  {
  }

  /**
   * PREPARE for an image of this length, DATA frames carrying its parts in any order with any losses, repetitions
   * and failed writes, then VERIFY and COMMIT: if PREPARE, VERIFY and COMMIT are acknowledged, the prepared slot
   * holds exactly the image, and the next boot runs it exactly when its stack pointer lies below 0x20020000.
   */
  lemma {:induction false} SentImageBoots(st: State, prepare: Event, data: seq<Event>, verify: Event, commit: Event,
                       on: Event, leave: Event, image: seq<byte>)
    requires Linked(st) && 4 <= |image|
    requires Frames(prepare, OTA_PREPARE) && ReplyTo(st, prepare).Ack?
    requires ReadU32(prepare.kind.frame.payload, 2) == |image|
    requires forall e | e in data :: Frames(e, OTA_DATA) && Carries(e.kind.frame.payload, image)
    requires var sent := Run(Next(st, prepare), data);
             && Frames(verify, OTA_VERIFY) && sent.phase.Loader? && ReplyTo(sent, verify).Ack?
             && Frames(commit, OTA_COMMIT) && Next(sent, verify).phase.Loader?
             && ReplyTo(Next(sent, verify), commit).Ack?
    requires on.kind.PowerOn? && !on.cut && leave.kind.Leave? && !leave.cut
    ensures var committed := Next(Next(Run(Next(st, prepare), data), verify), commit);
            var booted := Next(Next(committed, on), leave);
            var slot := Other(st.phase.meta.active);
            && committed.phase.Off? && Effective(committed).pending == slot
            && Has(booted.mem, slot, image)
            && (booted.phase == Running(slot) <==> ReadU32(image, 0) < 0x2002_0000)
  {
    var slot := Other(st.phase.meta.active);
    var target := SlotBase(slot);
    var sent := Run(Next(st, prepare), data);
    AfterPrepare(st, prepare, image);
    AfterAllData(Next(st, prepare), data, image, target);
    AfterVerify(sent, verify, image, target);
    CommittedBoots(Next(sent, verify), commit, on, leave, image);
  }

  lemma ProposedPending(c: Ctx, m: Meta, slot: byte)
    requires IsSlot(slot) && c.target == SlotBase(slot)
    ensures var w := ToStore(Proposed(c, m), true);
            && w.pending == slot && w.attempts == 0 && w.active == m.active
            && ImageOf(w, slot).size == c.size && ImageOf(w, slot).crc == c.crc
  {
  }
}
