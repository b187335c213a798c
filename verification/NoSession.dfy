/** Without a session, after an ABORT or a power-up, nothing but an acknowledged PREPARE has any effect. */
module NoSession {
  import opened Bytes
  import opened Flash
  import opened MetaRecord
  import opened Session
  import opened Machine
  import opened EndToEnd

  /** Where the flash differs it has been erased, inside a slot a PREPARE may target. */
  ghost predicate OnlyErased(mem: seq<byte>, mem': seq<byte>, m: Meta) {
    && |mem'| == |mem|
    && forall i | 0 <= i < |mem| && mem'[i] != mem[i] ::
         && mem'[i] == ERASED
         && ((0x2_0000 <= i < 0x8_0000 && TargetAllowed(m, SLOT_A_BASE))
             || (0x8_0000 <= i < 0xE_0000 && TargetAllowed(m, SLOT_B_BASE)))
  }

  /** A frame that needs a session. */
  predicate NeedsSession(f: Frame) {
    f.kind in {OTA_DATA, OTA_VERIFY, OTA_COMMIT}
  }

  lemma QuietFrame(mem: seq<byte>, c: Ctx, m: Meta, f: Frame, ops: nat)
    requires |mem| == FLASH_SIZE && CtxOk(c) && !c.active
    requires f.kind == OTA_PREPARE ==> !Handle(mem, c, m, f, ops).reply.Ack?
    ensures var s := Handle(mem, c, m, f, ops);
            && !s.ctx.active && s.meta == m && !s.reset && OnlyErased(mem, s.mem, m)
            && (f.kind != OTA_PREPARE ==> s.mem == mem)
            && (NeedsSession(f) ==> s.reply == Nack(0, BadPayload) && s.ctx == c)
  {
    if f.kind == OTA_PREPARE {
      assert Handle(mem, c, m, f, ops) == Prepare(mem, c, m, f.payload, ops);
    }
  }

  lemma ErasedOnce(mem: seq<byte>, t: seq<byte>, u: seq<byte>, m: Meta)
    requires OnlyErased(mem, t, m) && OnlyErased(t, u, m)
    ensures OnlyErased(mem, u, m)
  {
  }

  /** Frames only, none of them a PREPARE that is acknowledged. */
  predicate Unprepared(st: State, es: seq<Event>)
    requires StateOk(st)
    decreases |es|
  {
    es == [] ||
    var init, e := es[..|es| - 1], es[|es| - 1];
    && Unprepared(st, init) && e.kind.Receive? && !e.cut
    && (e.kind.frame.kind == OTA_PREPARE && Run(st, init).phase.Loader? ==> !ReplyTo(Run(st, init), e).Ack?)
  }

  /** Every DATA, VERIFY and COMMIT is refused with number 0. */
  predicate AllRefused(st: State, es: seq<Event>)
    requires StateOk(st)
    decreases |es|
  {
    es == [] ||
    var init, e := es[..|es| - 1], es[|es| - 1];
    && AllRefused(st, init)
    && (e.kind.Receive? && NeedsSession(e.kind.frame) ==>
          Run(st, init).phase.Loader? && ReplyTo(Run(st, init), e) == Nack(0, BadPayload))
  }

  predicate HasPrepare(es: seq<Event>) {
    exists e :: e in es && e.kind.Receive? && e.kind.frame.kind == OTA_PREPARE
  }

  /** The loader as it was, without a session. */
  ghost predicate Sessionless(st: State, st': State)
    requires StateOk(st) && st.phase.Loader? && StateOk(st')
  {
    && st'.phase.Loader? && !st'.phase.ctx.active
    && st'.phase.meta == st.phase.meta && st'.phase.stuck == st.phase.stuck
    && OnlyErased(st.mem, st'.mem, st.phase.meta)
  }

  lemma QuietEvent(st: State, mid: State, e: Event)
    requires StateOk(st) && st.phase.Loader? && StateOk(mid) && Sessionless(st, mid)
    requires e.kind.Receive? && !e.cut && (e.kind.frame.kind == OTA_PREPARE ==> !ReplyTo(mid, e).Ack?)
    ensures Sessionless(st, Next(mid, e))
    ensures e.kind.frame.kind != OTA_PREPARE ==> Next(mid, e).mem == mid.mem
    ensures NeedsSession(e.kind.frame) ==> ReplyTo(mid, e) == Nack(0, BadPayload)
  {
    hide Handle, OnlyErased;
    QuietFrame(mid.mem, mid.phase.ctx, mid.phase.meta, e.kind.frame, e.ops);
    FrameLeads(mid, e);
    ErasedOnce(st.mem, mid.mem, Next(mid, e).mem, st.phase.meta);
  }

  /** Without a session frames change nothing but what a refused PREPARE erases, until one is acknowledged. */
  lemma {:induction false} QuietRun(st: State, es: seq<Event>)
    requires StateOk(st) && st.phase.Loader? && !st.phase.ctx.active && Unprepared(st, es)
    ensures Sessionless(st, Run(st, es)) && AllRefused(st, es)
    ensures !HasPrepare(es) ==> Run(st, es).mem == st.mem
    decreases |es|
  {
    hide Next, Handle, OnlyErased, NeedsSession;
    if es == [] {
      NothingErased(st.mem, st.phase.meta);
    } else {
      var init, e := es[..|es| - 1], es[|es| - 1];
      QuietRun(st, init);
      QuietEvent(st, Run(st, init), e);
      assert e in es && forall x | x in init :: x in es;
    }
  }

  lemma NothingErased(mem: seq<byte>, m: Meta)
    ensures OnlyErased(mem, mem, m)
  {
  }

  /**
   * An ABORT is acknowledged and ends the session: until a PREPARE is acknowledged every DATA, VERIFY and COMMIT is
   * refused with number 0, and the metadata, and flash apart from what a refused PREPARE erases, stay as they are.
   */
  lemma {:induction false} AbortEndsSession(st: State, abort: Event, es: seq<Event>)
    requires StateOk(st) && st.phase.Loader? && Frames(abort, OTA_ABORT) && Unprepared(Next(st, abort), es)
    ensures var p := abort.kind.frame.payload;
            ReplyTo(st, abort) == Ack(if |p| < 2 then 0 else ReadU16(p, 0))
    ensures Next(st, abort).mem == st.mem && Sessionless(st, Run(Next(st, abort), es))
    ensures AllRefused(Next(st, abort), es)
    ensures !HasPrepare(es) ==> Run(Next(st, abort), es).mem == st.mem
  {
    hide Run, Unprepared, AllRefused, HasPrepare, OnlyErased;
    QuietRun(Next(st, abort), es);
  }
}
