/** The version floor: what keeps a pending image at or above it. */
module Floors {
  import opened Bytes
  import opened Flash
  import opened MetaRecord
  import opened MetaLog
  import opened MetaStore
  import opened Session
  import opened Boot
  import opened Machine
  import opened Safety
  import opened Runs
  import opened Ledger

  /** Unversioned, or at or above the floor. */
  predicate VersionOk(version: u32, m: Meta) {
    version == 0 || version >= MinAllowed(m)
  }

  predicate Floored(m: Meta) {
    m.pending != SLOT_NONE ==> VersionOk(ImageOf(m, m.pending).version, m)
  }

  /** Whatever is pending, and whatever a session would make pending, respects the floor. */
  predicate FloorKept(st: State)
    requires StateOk(st)
  {
    && Floored(Effective(st))
    && (st.phase.Loader? ==>
          Floored(st.phase.meta) && (st.phase.ctx.active ==> VersionOk(st.phase.ctx.version, st.phase.meta)))
  }

  /** A PREPARE that arrives during a session announces no version below the floor. */
  predicate AboveFloor(st: State, e: Event)
    requires StateOk(st)
  {
    e.kind.Receive? && e.kind.frame.kind == OTA_PREPARE && st.phase.Loader? && st.phase.ctx.active
    && |e.kind.frame.payload| >= 12 ==>
      VersionOk(Announced(st.phase.ctx, e.kind.frame.payload).version, st.phase.meta)
  }

  lemma DefaultFloored()
    ensures Floored(DefaultMeta()) && Floored(ToStore(DefaultMeta(), true))
  {
    hide Checksum;
  }

  lemma DecidedFloored(mem: seq<byte>, m: Meta)
    requires |mem| == FLASH_SIZE && Floored(m)
    ensures Floored(Decided(mem, m)) && Floored(ToStore(Decided(mem, m), true))
  {
    hide Checksum, ImageOk;
  }

  /** What an event commits respects the floor. */
  lemma WrittenFloored(st: State, e: Event)
    requires Inv(st) && FloorKept(st)
    ensures Written(st, e.kind).Some? ==> Floored(Written(st, e.kind).value)
  {
    hide LogOk, LogOf, Checksum, Decided;
    DefaultFloored();
    if e.kind.Leave? && st.phase.Loader? { DecidedFloored(st.mem, st.phase.meta); }
  }

  lemma EffectiveFloored(st: State, e: Event)
    requires Inv(st) && CleanTear(st, e) && FloorKept(st)
    ensures Floored(Effective(Next(st, e)))
  {
    hide LogOk, LogOf, Sane, Valid, Next, CleanTear, Floored, LogAfter;
    EventLog(st, e);
    DefaultFloored();
    WrittenFloored(st, e);
    var w := Written(st, e.kind);
    if w.Some? { EffectiveAfter(st, e, w.value, Next(st, e).mem); }
  }

  /** The version a frame leaves in the session. */
  lemma FrameVersion(mem: seq<byte>, c: Ctx, m: Meta, f: Frame, ops: nat)
    requires |mem| == FLASH_SIZE && CtxOk(c) && !CommitAccepted(c, f)
    requires c.active ==> VersionOk(c.version, m)
    requires f.kind == OTA_PREPARE && c.active && |f.payload| >= 12 ==> VersionOk(Announced(c, f.payload).version, m)
    ensures var s := Handle(mem, c, m, f, ops); s.ctx.active ==> VersionOk(s.ctx.version, m)
  {
  }

  lemma FrameFloored(st: State, e: Event)
    requires Inv(st) && FloorKept(st) && AboveFloor(st, e) && e.kind.Receive? && st.phase.Loader?
    ensures var st' := Next(st, e);
            st'.phase.Loader? ==>
              Floored(st'.phase.meta) && (st'.phase.ctx.active ==> VersionOk(st'.phase.ctx.version, st'.phase.meta))
  {
    hide Handle, LogOk, Sane, LogOf, Floored;
    var c, m, f := st.phase.ctx, st.phase.meta, e.kind.frame;
    if CommitAccepted(c, f) {
      HandleCommits(st.mem, c, m, f, e.ops);
    } else {
      HandleStays(st.mem, c, m, f, e.ops);
      FrameVersion(st.mem, c, m, f, e.ops);
    }
  }

  lemma PowerOnFloored(st: State, e: Event)
    requires Inv(st) && FloorKept(st) && e.kind.PowerOn? && st.phase.Off?
    ensures var st' := Next(st, e);
            st'.phase.Loader? ==> Floored(st'.phase.meta) && !st'.phase.ctx.active
  {
    hide LogOk, LogOf, Checksum, Store;
    DefaultFloored();
  }

  lemma LeaveFloored(st: State, e: Event)
    requires Inv(st) && FloorKept(st) && e.kind.Leave? && st.phase.Loader? && !st.phase.stuck
    ensures var st' := Next(st, e);
            st'.phase.Loader? ==> Floored(st'.phase.meta) && !st'.phase.ctx.active
  {
    hide LogOk, LogOf, Decide, Decided;
    LeaveEnds(st, e.ops);
    DecidedFloored(st.mem, st.phase.meta);
  }

  /** Every regular event whose PREPARE respects the floor keeps it respected. */
  lemma FloorStep(st: State, e: Event)
    requires Inv(st) && CleanTear(st, e) && FloorKept(st) && AboveFloor(st, e)
    ensures FloorKept(Next(st, e))
  {
    EffectiveFloored(st, e);
    hide LogOk, LogOf, Sane, Floored, Handle, Decide, PowerUp, Confirm, AboveFloor;
    match e.kind
    case PowerOn => if st.phase.Off? { PowerOnFloored(st, e); }
    case Receive(_) => if st.phase.Loader? { FrameFloored(st, e); }
    case Leave => if st.phase.Loader? && !st.phase.stuck { LeaveFloored(st, e); }
    case SelfConfirm =>
    case Reset =>
  }
}
