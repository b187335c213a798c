/**
 * The whole device as one state machine: power-up, downlink frames, leaving the loader, self-confirmation,
 * resets, and a power cut or a refused flash operation at any point of any of them.
 */
module Machine {
  import opened Bytes
  import opened Flash
  import opened MetaRecord
  import opened MetaLog
  import opened MetaHistory
  import opened MetaStore
  import opened Session
  import opened Boot

  /** `stuck`: the loader found nothing to boot and waits for frames without a timeout. */
  datatype Phase = Off | Loader(meta: Meta, ctx: Ctx, stuck: bool) | Running(slot: byte)

  datatype State = State(mem: seq<byte>, phase: Phase)

  datatype Kind = PowerOn | Receive(frame: Frame) | Leave | SelfConfirm | Reset

  /** During the event `ops` flash operations succeed; `cut`: power is lost at that point. */
  datatype Event = Event(kind: Kind, ops: nat, cut: bool)

  predicate StateOk(st: State) {
    && |st.mem| == FLASH_SIZE
    && (st.phase.Loader? ==> CtxOk(st.phase.ctx))
    && (st.phase.Running? ==> IsSlot(st.phase.slot))
  }

  /** What the firmware does with an event while it has power. */
  function React(st: State, kind: Kind, ops: nat): (r: State)
    requires StateOk(st)
    ensures StateOk(r)
  {
    match kind
    case PowerOn =>
      if !st.phase.Off? then st
      else
        var s := PowerUp(st.mem, ops);
        State(s.mem, Loader(s.meta, IDLE, false))
    case Receive(f) =>
      if !st.phase.Loader? then st
      else
        var s := Handle(st.mem, st.phase.ctx, st.phase.meta, f, ops);
        State(s.mem, if s.reset then Off else Loader(s.meta, s.ctx, st.phase.stuck))
    case Leave =>
      if !st.phase.Loader? || st.phase.stuck then st
      else
        var d := Decide(st.mem, st.phase.meta, ops);
        DecideJumps(st.mem, st.phase.meta, ops);
        State(d.mem, if d.jump.Some? then Running(d.jump.value) else Loader(d.meta, IDLE, true))
    case SelfConfirm =>
      if !st.phase.Running? then st
      else State(Confirm(st.mem, st.phase.slot, ops), st.phase)
    case Reset =>
      State(st.mem, Off)
  }

  lemma DecideJumps(mem: seq<byte>, m: Meta, ops: nat)
    requires |mem| == FLASH_SIZE
    ensures Decide(mem, m, ops).jump.Some? ==> IsSlot(Decide(mem, m, ops).jump.value)
  {
  }

  function Next(st: State, e: Event): (r: State)
    requires StateOk(st)
    ensures StateOk(r)
  {
    var r := React(st, e.kind, e.ops);
    if e.cut then r.(phase := Off) else r
  }

  function Run(st: State, es: seq<Event>): (r: State)
    requires StateOk(st)
    ensures StateOk(r)
    decreases |es|
  {
    if es == [] then st else Next(Run(st, es[..|es| - 1]), es[|es| - 1])
  }

  /** The effective metadata: what the next load would yield. */
  function Effective(st: State): Meta
    requires StateOk(st)
  {
    Load(LogOf(st.mem))
  }

  function Home(st: State): byte
    requires StateOk(st)
  {
    Effective(st).active
  }

  function SlotBytes(mem: seq<byte>, slot: byte): (s: seq<byte>)
    requires |mem| == FLASH_SIZE
    ensures |s| == SLOT_SIZE
  {
    mem[SlotAt(slot)..SlotAt(slot) + SLOT_SIZE]
  }

  // ---- Which runs are considered ----

  predicate CommitAccepted(c: Ctx, f: Frame) {
    f.kind == OTA_COMMIT && c.active && |f.payload| >= 2 && ReadU16(f.payload, 0) == c.expected
  }

  /** The record an event commits, if it commits one. */
  function Written(st: State, kind: Kind): Option<Meta>
    requires StateOk(st)
  {
    match kind
    case PowerOn =>
      if st.phase.Off? && Stored(LogOf(st.mem)).None? then Some(ToStore(DefaultMeta(), true)) else None
    case Receive(f) =>
      if st.phase.Loader? && CommitAccepted(st.phase.ctx, f)
      then Some(ToStore(Proposed(st.phase.ctx, st.phase.meta), true)) else None
    case Leave =>
      if st.phase.Loader? && !st.phase.stuck && IsSlot(st.phase.meta.pending)
      then Some(ToStore(Decided(st.mem, st.phase.meta), true)) else None
    case SelfConfirm =>
      if st.phase.Running? && Stored(LogOf(st.mem)).Some? && Confirmable(Stored(LogOf(st.mem)).value, st.phase.slot)
      then Some(ToStore(ConfirmedMeta(Stored(LogOf(st.mem)).value, st.phase.slot), false)) else None
    case Reset => None
  }

  predicate Finished(st: State, e: Event)
    requires StateOk(st)
  {
    e.ops >= CommitOps(LogOf(st.mem))
  }

  /**
   * No torn record passes for a whole one: the blank tail of a cut record does not collide with an erased
   * checksum, and a commit that fails with power still on fails before it changes anything, or while appending
   * and before its last clear bit.
   */
  predicate CleanTear(st: State, e: Event)
    requires StateOk(st)
  {
    var w, es := Written(st, e.kind), LogOf(st.mem);
    w.Some? ==>
      && !Collides(w.value, CutAt(es, e.ops))
      && (!e.cut && !Finished(st, e) && e.ops > 0 ==>
            Used(es) < RECORDS && TornEntry(w.value, CutAt(es, e.ops)) != Good(w.value))
  }

  /** No DATA frame of the session can leave slot A, behind which slot B begins; behind slot B there is no slot. */
  predicate Contained(c: Ctx) {
    c.active && c.target == SLOT_A_BASE ==> c.offset <= SLOT_SIZE && (c.size <= SLOT_SIZE || c.chunk == 0)
  }

  /** A PREPARE that arrives during a session announces nothing that would let the session leave slot A. */
  predicate PrepareContained(st: State, e: Event)
    requires StateOk(st)
  {
    e.kind.Receive? && e.kind.frame.kind == OTA_PREPARE && st.phase.Loader? && |e.kind.frame.payload| >= 12 ==>
      Contained(Announced(st.phase.ctx, e.kind.frame.payload))
  }

  predicate Regular(st: State, e: Event)
    requires StateOk(st)
  {
    CleanTear(st, e) && PrepareContained(st, e)
  }

  predicate AllRegular(st: State, es: seq<Event>)
    requires StateOk(st)
    decreases |es|
  {
    es == [] || (AllRegular(st, es[..|es| - 1]) && Regular(Run(st, es[..|es| - 1]), es[|es| - 1]))
  }

  /** Power is not lost between the erase of a full metadata sector and the end of its rewrite. */
  predicate OutsideCompaction(st: State, e: Event)
    requires StateOk(st)
  {
    Written(st, e.kind).Some? && Used(LogOf(st.mem)) == RECORDS ==> e.ops == 0 || Finished(st, e)
  }
}
