/** A host that sends one image in order and a device whose flash obeys: every frame is acknowledged. */
module InOrder {
  import opened Bytes
  import opened Crc
  import opened Flash
  import opened MetaRecord
  import opened MetaLog
  import opened MetaStore
  import opened Session
  import opened Machine
  import opened Safety
  import opened Transfer
  import opened EndToEnd

  // ---- What the host sends ----

  /** A PREPARE for the image, in bounds, for the slot that is not home, and not below the version floor. */
  predicate Offers(st: State, e: Event, image: seq<byte>)
    requires StateOk(st) && st.phase.Loader?
  {
    && Frames(e, OTA_PREPARE) && e.ops >= 3 && |e.kind.frame.payload| >= 12
    && var p, m := e.kind.frame.payload, st.phase.meta;
       && ReadU32(p, 2) == |image| && ReadU32(p, 6) == Crc32(image) && 0 < ReadU16(p, 10) <= MAX_CHUNK
       && Target(m, p) == SlotBase(Other(m.active))
       && var version := Announced(st.phase.ctx, p).version; version == 0 || version >= MinAllowed(m)
  }

  /** A DATA frame with the image's next n bytes; flash takes them all. */
  predicate Sends(e: Event, image: seq<byte>, seqNo: u16, offset: nat, n: nat) {
    && Frames(e, OTA_DATA) && |e.kind.frame.payload| == 8 + n && e.ops >= n && offset + n <= |image|
    && var p := e.kind.frame.payload;
       DataSeq(p) == seqNo && DataOffset(p) == offset && DataLen(p) == n && p[8..] == image[offset..offset + n]
  }

  /** The data bytes of the frames. */
  function Sent(es: seq<Event>): nat
    decreases |es|
  {
    if es == [] then 0 else Sent(es[..|es| - 1]) + DataBytes(es[|es| - 1])
  }

  function DataBytes(e: Event): nat {
    if e.kind.Receive? && |e.kind.frame.payload| >= 8 then |e.kind.frame.payload| - 8 else 0
  }

  /** DATA frames that carry the image from its start, in nonempty chunks under consecutive sequence numbers. */
  predicate Streams(es: seq<Event>, image: seq<byte>, first: u16, chunk: u16)
    decreases |es|
  {
    es == [] ||
    var init, e := es[..|es| - 1], es[|es| - 1];
    && Streams(init, image, first, chunk) && 0 < DataBytes(e) <= chunk
    && Sends(e, image, (first + |init|) % 0x1_0000, Sent(init), DataBytes(e))
  }

  /** The image's own vector table is plausible for this slot. */
  predicate Plausible(image: seq<byte>, base: u32) {
    && |image| >= 8
    && 0x2000_0000 <= ReadU32(image, 0) < 0x2003_0000 && base <= ReadU32(image, 4) < base + SLOT_SIZE
  }

  predicate Asks(e: Event, seqNo: u16, crc: u32) {
    && Frames(e, OTA_VERIFY) && |e.kind.frame.payload| >= 6
    && ReadU16(e.kind.frame.payload, 0) == seqNo && ReadU32(e.kind.frame.payload, 2) == crc
  }

  predicate Orders(e: Event, seqNo: u16) {
    Frames(e, OTA_COMMIT) && |e.kind.frame.payload| >= 2 && ReadU16(e.kind.frame.payload, 0) == seqNo
  }

  // ---- What the device answers ----

  predicate Clean(mem: seq<byte>, lo: nat, hi: nat) {
    hi <= |mem| && forall i | lo <= i < hi :: mem[i] == ERASED
  }

  /** The first n bytes of the image received; the rest of the slot is still erased. */
  ghost predicate Loading(st: State, image: seq<byte>, target: u32, chunk: u16, n: nat, expected: u16) {
    && Receiving(st, image, target) && IsSlotBase(target)
    && var c := st.phase.ctx;
       && c.offset == n && c.expected == expected && c.chunk == chunk && c.crc == Crc32(image)
       && Clean(st.mem, Index(target) + n, Index(target) + SLOT_SIZE)
  }

  predicate Acked(st: State, e: Event)
    requires StateOk(st)
  {
    st.phase.Loader? && e.kind.Receive? && ReplyTo(st, e).Ack?
  }

  lemma PrepareReply(mem: seq<byte>, c: Ctx, m: Meta, p: seq<byte>, ops: nat)
    requires |mem| == FLASH_SIZE && |p| >= 12 && Sane(m) && ops >= 3
    requires 0 < ReadU32(p, 2) <= SLOT_SIZE && 0 < ReadU16(p, 10) <= MAX_CHUNK
    requires Target(m, p) == SlotBase(Other(m.active))
    requires var version := Announced(c, p).version; version == 0 || version >= MinAllowed(m)
    ensures var s := Prepare(mem, c, m, p, ops);
            && s.reply == Ack(ReadU16(p, 0)) && !s.reset && s.meta == m
            && s.mem == Wiped(mem, Index(Target(m, p)), SLOT_SIZE)
            && s.ctx == Announced(c, p).(active := true, expected := Next16(ReadU16(p, 0)), target := Target(m, p),
                                         offset := 0)
  {
    TargetIsAway(m, Target(m, p));
  }

  lemma PrepareAcked(st: State, e: Event, image: seq<byte>)
    requires Linked(st) && 0 < |image| <= SLOT_SIZE && Offers(st, e, image)
    ensures var p := e.kind.frame.payload;
            && ReplyTo(st, e) == Ack(ReadU16(p, 0)) && Next(st, e).phase.Loader?
            && Next(st, e).phase.meta == st.phase.meta && LogOf(Next(st, e).mem) == LogOf(st.mem)
            && Loading(Next(st, e), image, Target(st.phase.meta, p), ReadU16(p, 10), 0, Next16(ReadU16(p, 0)))
  {
    hide LogOk, LogOf, Crc32, MinAllowed;
    var c, m, f := st.phase.ctx, st.phase.meta, e.kind.frame;
    PrepareReply(st.mem, c, m, f.payload, e.ops);
    assert Handle(st.mem, c, m, f, e.ops) == Prepare(st.mem, c, m, f.payload, e.ops);
    AfterPrepare(st, e, image);
    HandleStays(st.mem, c, m, f, e.ops);
  }

  lemma DataReply(mem: seq<byte>, c: Ctx, m: Meta, p: seq<byte>, ops: nat)
    requires |mem| == FLASH_SIZE && CtxOk(c) && c.active && 8 < |p| && ops >= |p| - 8
    requires DataSeq(p) == c.expected && DataLen(p) == |p| - 8 <= c.chunk && DataOffset(p) == c.offset
    requires c.offset + |p| - 8 <= c.size <= SLOT_SIZE
    requires Clean(mem, Index(c.target) + c.offset, Index(c.target) + SLOT_SIZE)
    ensures var s, n := Data(mem, c, m, p, ops), |p| - 8;
            && s.reply == Ack(c.expected) && !s.reset && s.meta == m
            && s.ctx == c.(offset := c.offset + n, expected := Next16(c.expected))
            && Clean(s.mem, Index(c.target) + c.offset + n, Index(c.target) + SLOT_SIZE)
  {
    var at, d := Index(c.target) + c.offset, p[8..];
    forall i | 0 <= i < |d| ensures mem[at + i] == ERASED && And(mem[at + i], d[i]) == d[i] {
      AndErased(d[i]);
    }
    assert Copies(mem, at, d);
  }

  /** The next chunk in order is acknowledged and extends the image received. */
  lemma ChunkAcked(st: State, e: Event, image: seq<byte>, target: u32, chunk: u16, n: nat, expected: u16)
    requires Loading(st, image, target, chunk, n, expected) && 0 < DataBytes(e) <= chunk
    requires Sends(e, image, expected, n, DataBytes(e))
    ensures Acked(st, e) && ReplyTo(st, e) == Ack(expected) && Next(st, e).phase.Loader?
    ensures Loading(Next(st, e), image, target, chunk, n + DataBytes(e), Next16(expected))
    ensures Next(st, e).phase.meta == st.phase.meta && LogOf(Next(st, e).mem) == LogOf(st.mem)
  {
    hide LogOk, LogOf, Crc32, Sane;
    var c, m, f := st.phase.ctx, st.phase.meta, e.kind.frame;
    DataReply(st.mem, c, m, f.payload, e.ops);
    assert Handle(st.mem, c, m, f, e.ops) == Data(st.mem, c, m, f.payload, e.ops);
    AfterData(st, e, image, target);
    HandleStays(st.mem, c, m, f, e.ops);
  }

  predicate AllAcked(st: State, es: seq<Event>)
    requires StateOk(st)
    decreases |es|
  {
    es == [] || (AllAcked(st, es[..|es| - 1]) && Acked(Run(st, es[..|es| - 1]), es[|es| - 1]))
  }

  /** Every chunk of a stream is acknowledged, and all of them are received. */
  lemma {:induction false} StreamAcked(st: State, es: seq<Event>, image: seq<byte>, target: u32, chunk: u16, first: u16)
    requires Loading(st, image, target, chunk, 0, first) && Streams(es, image, first, chunk)
    ensures AllAcked(st, es)
    ensures Loading(Run(st, es), image, target, chunk, Sent(es), (first + |es|) % 0x1_0000)
    ensures Run(st, es).phase.meta == st.phase.meta && LogOf(Run(st, es).mem) == LogOf(st.mem)
    decreases |es|, 1
  {
    hide LogOk, LogOf, Crc32, Next, Clean, Acked, DataBytes, Sends, Sane, Mirrors, Received;
    if es == [] {
    } else {
      StreamOn(st, es, image, target, chunk, first);
    }
  }

  lemma {:induction false} StreamOn(st: State, es: seq<Event>, image: seq<byte>, target: u32, chunk: u16, first: u16)
    requires StateOk(st) && Loading(st, image, target, chunk, 0, first) && Streams(es, image, first, chunk) && es != []
    ensures AllAcked(st, es)
    ensures Loading(Run(st, es), image, target, chunk, Sent(es), (first + |es|) % 0x1_0000)
    ensures Run(st, es).phase.meta == st.phase.meta && LogOf(Run(st, es).mem) == LogOf(st.mem)
    decreases |es|, 0
  {
    hide LogOk, LogOf, Crc32, Sane, Next, Clean, DataBytes, Run, Streams, AllAcked, Sent, Sends, Acked, Received,
      Loading;
    var init, e := es[..|es| - 1], es[|es| - 1];
    LastOfStream(st, es, image, chunk, first);
    StreamAcked(st, init, image, target, chunk, first);
    ChunkAcked(Run(st, init), e, image, target, chunk, Sent(init), (first + |init|) % 0x1_0000);
  }

  lemma LastOfStream(st: State, es: seq<Event>, image: seq<byte>, chunk: u16, first: u16)
    requires StateOk(st) && Streams(es, image, first, chunk) && es != []
    ensures var init, e := es[..|es| - 1], es[|es| - 1];
            && Streams(init, image, first, chunk) && 0 < DataBytes(e) <= chunk
            && Sends(e, image, (first + |init|) % 0x1_0000, Sent(init), DataBytes(e))
            && Run(st, es) == Next(Run(st, init), e) && Sent(es) == Sent(init) + DataBytes(e)
            && (AllAcked(st, es) <==> AllAcked(st, init) && Acked(Run(st, init), e))
            && Next16((first + |init|) % 0x1_0000) == (first + |es|) % 0x1_0000
  {
    hide Next, Acked, Sends, DataBytes;
  }

  /** In a slot that is erased behind the image, the loader sees the image's own vector table. */
  lemma VectorOfImage(mem: seq<byte>, base: u32, image: seq<byte>)
    requires |mem| == FLASH_SIZE && IsSlotBase(base) && |image| <= SLOT_SIZE
    requires SliceAt(mem, Index(base), |image|) == image && Clean(mem, Index(base) + |image|, Index(base) + SLOT_SIZE)
    ensures LoaderVectorOk(mem, base) <==> Plausible(image, base)
  {
    var at := Index(base);
    if |image| >= 8 {
      ReadInSlice(mem, at, at + |image|, 0);
      ReadInSlice(mem, at, at + |image|, 4);
    } else if |image| < 4 {
      assert mem[at + 3] == ERASED;
    } else {
      assert mem[at + 7] == ERASED;
    }
  }

  lemma VerifyReply(mem: seq<byte>, c: Ctx, m: Meta, p: seq<byte>, image: seq<byte>)
    requires |mem| == FLASH_SIZE && CtxOk(c) && c.active && |p| >= 6
    requires ReadU16(p, 0) == c.expected && ReadU32(p, 2) == c.crc == Crc32(image) && c.offset == c.size == |image|
    requires |image| <= SLOT_SIZE && SliceAt(mem, Index(c.target), |image|) == image
    requires Clean(mem, Index(c.target) + |image|, Index(c.target) + SLOT_SIZE)
    ensures Verify(mem, c, m, p).reply.Ack? <==> Plausible(image, c.target)
  {
    hide Crc32, Clean, LoaderVectorOk, Plausible;
    VectorOfImage(mem, c.target, image);
  }

  /** Once all bytes are there, VERIFY is acknowledged exactly when the image's vector table is plausible. */
  lemma VerifyAckedIff(st: State, e: Event, image: seq<byte>, target: u32, chunk: u16, expected: u16)
    requires Loading(st, image, target, chunk, |image|, expected) && 0 < |image|
    requires Asks(e, expected, Crc32(image))
    ensures ReplyTo(st, e).Ack? <==> Plausible(image, target)
  {
    hide Inv, Crc32, Clean, Verify, Plausible;
    var c, m, f := st.phase.ctx, st.phase.meta, e.kind.frame;
    assert image[..|image|] == image;
    VerifyReply(st.mem, c, m, f.payload, image);
    assert Handle(st.mem, c, m, f, e.ops) == Verify(st.mem, c, m, f.payload);
  }

  lemma CommitReply(mem: seq<byte>, c: Ctx, m: Meta, p: seq<byte>, ops: nat)
    requires |mem| == FLASH_SIZE && c.active && |p| >= 2 && ReadU16(p, 0) == c.expected
    ensures Commit(mem, c, m, p, ops).reply.Ack? <==> ops >= CommitOps(LogOf(mem))
  {
    hide LogOf;
  }

  /** COMMIT is acknowledged exactly when flash takes the whole commit. */
  lemma CommitAckedIff(st: State, e: Event)
    requires StateOk(st) && st.phase.Loader? && st.phase.ctx.active && Orders(e, st.phase.ctx.expected)
    ensures ReplyTo(st, e).Ack? <==> Finished(st, e)
  {
    hide LogOf;
    var c, m, f := st.phase.ctx, st.phase.meta, e.kind.frame;
    assert Handle(st.mem, c, m, f, e.ops) == Commit(st.mem, c, m, f.payload, e.ops);
    CommitReply(st.mem, c, m, f.payload, e.ops);
  }

  // ---- The whole transfer ----

  /** What a host sends to install the image, and enough flash operations for all of it. */
  predicate Honest(st: State, prepare: Event, data: seq<Event>, verify: Event, commit: Event, image: seq<byte>)
    requires StateOk(st) && st.phase.Loader?
  {
    && 0 < |image| <= SLOT_SIZE && Offers(st, prepare, image)
    && var first := Next16(ReadU16(prepare.kind.frame.payload, 0));
       var last := (first + |data|) % 0x1_0000;
       && Streams(data, image, first, ReadU16(prepare.kind.frame.payload, 10)) && Sent(data) == |image|
       && Asks(verify, last, Crc32(image)) && Orders(commit, Next16(last)) && Finished(st, commit)
  }

  /** PREPARE and all chunks are acknowledged; VERIFY is, exactly when the vector table is plausible. */
  lemma {:induction false} UpToVerify(st: State, prepare: Event, data: seq<Event>, verify: Event, commit: Event,
                                      image: seq<byte>)
    requires Linked(st) && Honest(st, prepare, data, verify, commit, image)
    ensures var begun := Next(st, prepare);
            var sent := Run(begun, data);
            && Acked(st, prepare) && AllAcked(begun, data) && Linked(sent) && verify.kind.Receive?
            && (Acked(sent, verify) <==> Plausible(image, SlotBase(Other(st.phase.meta.active))))
            && LogOf(sent.mem) == LogOf(st.mem) && sent.phase.ctx.active
            && sent.phase.ctx.expected == (Next16(ReadU16(prepare.kind.frame.payload, 0)) + |data|) % 0x1_0000
  {
    hide LogOk, LogOf, Crc32, Next, Run, Streams, AllAcked, Sent, Plausible, Handle, Clean, MinAllowed;
    var p, target := prepare.kind.frame.payload, SlotBase(Other(st.phase.meta.active));
    var chunk, first := ReadU16(p, 10), Next16(ReadU16(p, 0));
    PrepareAcked(st, prepare, image);
    StreamAcked(Next(st, prepare), data, image, target, chunk, first);
    VerifyAckedIff(Run(Next(st, prepare), data), verify, image, target, chunk, (first + |data|) % 0x1_0000);
  }

  /** After an acknowledged VERIFY the COMMIT in order is acknowledged if flash takes it. */
  lemma VerifyThenCommit(st: State, verify: Event, commit: Event)
    requires Linked(st) && st.phase.ctx.active && Frames(verify, OTA_VERIFY) && Acked(st, verify)
    requires Orders(commit, Next16(st.phase.ctx.expected)) && commit.ops >= CommitOps(LogOf(st.mem))
    ensures Acked(Next(st, verify), commit)
  {
    hide LogOk, LogOf, Crc32, LoaderVectorOk;
    VerifyAcks(st.mem, st.phase.ctx, st.phase.meta, verify.kind.frame, verify.ops);
    FrameKeepsLinked(st, verify);
    CommitAckedIff(Next(st, verify), commit);
  }

  /**
   * With enough flash operations an image sent in order is installed exactly when its vector table is plausible
   * for the slot: PREPARE and every chunk are acknowledged, VERIFY if and only if it is, and then COMMIT.
   */
  lemma {:induction false} InOrderAcked(st: State, prepare: Event, data: seq<Event>, verify: Event, commit: Event,
                                        image: seq<byte>)
    requires Linked(st) && Honest(st, prepare, data, verify, commit, image)
    ensures var begun := Next(st, prepare);
            var sent := Run(begun, data);
            var plausible := Plausible(image, SlotBase(Other(st.phase.meta.active)));
            && Acked(st, prepare) && AllAcked(begun, data)
            && (Acked(sent, verify) <==> plausible) && (plausible ==> Acked(Next(sent, verify), commit))
  {
    hide LogOk, LogOf, Crc32, Next, Run, Streams, AllAcked, Sent, Plausible, Acked, Offers, Sane;
    UpToVerify(st, prepare, data, verify, commit, image);
    var sent := Run(Next(st, prepare), data);
    if Plausible(image, SlotBase(Other(st.phase.meta.active))) {
      VerifyThenCommit(sent, verify, commit);
    }
  }

  lemma {:induction false} StreamsCarry(es: seq<Event>, image: seq<byte>, first: u16, chunk: u16)
    requires Streams(es, image, first, chunk)
    ensures forall e | e in es :: Frames(e, OTA_DATA) && Carries(e.kind.frame.payload, image)
    decreases |es|
  {
    if es != [] {
      var init, e := es[..|es| - 1], es[|es| - 1];
      StreamsCarry(init, image, first, chunk);
      assert es == init + [e];
    }
  }

  /** An image sent in order with a plausible vector table is what the device holds, and boots, next. */
  lemma {:induction false} InOrderBoots(st: State, prepare: Event, data: seq<Event>, verify: Event, commit: Event,
                                        on: Event, leave: Event, image: seq<byte>)
    requires Linked(st) && Honest(st, prepare, data, verify, commit, image)
    requires Plausible(image, SlotBase(Other(st.phase.meta.active)))
    requires on.kind.PowerOn? && !on.cut && leave.kind.Leave? && !leave.cut
    ensures var committed := Next(Next(Run(Next(st, prepare), data), verify), commit);
            var booted := Next(Next(committed, on), leave);
            var slot := Other(st.phase.meta.active);
            && Effective(committed).pending == slot && Has(booted.mem, slot, image)
            && (booted.phase == Running(slot) <==> ReadU32(image, 0) < 0x2002_0000)
  {
    hide LogOk, LogOf, Crc32, Next, Run, Streams, AllAcked, Sent, Inv, Effective, Has;
    InOrderAcked(st, prepare, data, verify, commit, image);
    StreamsCarry(data, image, Next16(ReadU16(prepare.kind.frame.payload, 0)), ReadU16(prepare.kind.frame.payload, 10));
    SentImageBoots(st, prepare, data, verify, commit, on, leave, image);
  }
}
