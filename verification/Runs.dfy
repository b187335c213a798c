/** Theorems over every regular run: the trusted slot, no bricking, and the version floor. */
module Runs {
  import opened Bytes
  import opened Flash
  import opened MetaRecord
  import opened MetaLog
  import opened MetaHistory
  import opened MetaStore
  import opened Session
  import opened Boot
  import opened Machine
  import opened Safety

  /** The home slot passes the boot check, and so does the slot an application runs from. */
  ghost predicate Bootable(st: State)
    requires StateOk(st)
  {
    var eff := Effective(st);
    && ImageOk(st.mem, eff, eff.active)
    && (st.phase.Running? && st.phase.slot != eff.active ==>
          eff.pending == st.phase.slot && ImageOk(st.mem, eff, st.phase.slot))
  }

  /** What one regular event keeps; `whole`: power is not lost inside a metadata compaction. */
  ghost predicate Kept(st: State, whole: bool, st': State)
    requires StateOk(st) && StateOk(st')
  {
    var eff, eff' := Effective(st), Effective(st');
    && Inv(st')
    && (Bootable(st) && whole ==> Bootable(st'))
    && SlotBytes(st'.mem, eff.active) == SlotBytes(st.mem, eff.active)
    && (whole ==> Advances(eff, eff'))
    && (whole && eff'.active != eff.active ==> st.phase == Running(eff'.active))
  }

  /**
   * The home slot moves only to the pending slot. The floor moves with it, to that slot's version if this is above
   * the old floor, and at no other time.
   */
  predicate Advances(eff: Meta, eff': Meta) {
    if eff'.active == eff.active then eff'.minVersion == eff.minVersion
    else
      var version := ImageOf(eff, eff.pending).version;
      && eff'.active == eff.pending && ImageOf(eff', eff'.active).version == version
      && eff'.minVersion == Higher(eff.minVersion, version)
  }

  function Higher(a: u32, b: u32): u32 {
    if a < b then b else a
  }

  /** Flash and effective metadata unchanged outside the other slot. */
  lemma Unwritten(st: State, whole: bool, st': State)
    requires Inv(st) && StateOk(st') && OnlySlot(st.mem, st'.mem, Other(Home(st)))
    requires st'.phase.Loader? ==>
      && Sane(st'.phase.meta) && Mirrors(st'.phase.meta, Effective(st))
      && SessionSafe(st'.phase.ctx, st'.phase.meta)
    requires st'.phase.Running? && st'.phase.slot != Home(st) ==> st'.mem == st.mem && st.phase == st'.phase
    ensures Kept(st, whole, st')
  {
    var eff := Effective(st);
    assert Other(Other(eff.active)) == eff.active;
    ImageOkDepends(st.mem, st'.mem, eff, eff, eff.active);
  }

  // ---- Committing events ----

  /** A commit that leaves the home slot's description alone keeps everything. */
  lemma Rewritten(st: State, whole: bool, w: Meta, st': State)
    requires Inv(st) && StateOk(st') && SlotsSame(st.mem, st'.mem) && LogOk(LogOf(st'.mem))
    requires Effective(st') in {Effective(st), w, DefaultMeta()} && (whole ==> Effective(st') in {Effective(st), w})
    requires Sane(w) && w.active == Home(st) && SamePayload(w, Effective(st), w.active)
    requires w.minVersion == Effective(st).minVersion
    requires st'.phase.Loader? ==>
      && Sane(st'.phase.meta) && Mirrors(st'.phase.meta, Effective(st'))
      && SessionSafe(st'.phase.ctx, st'.phase.meta)
    requires Bootable(st) && st'.phase.Running? && st'.phase.slot != Home(st) ==>
      Effective(st').pending == st'.phase.slot && ImageOk(st'.mem, Effective(st'), st'.phase.slot)
    ensures Kept(st, whole, st')
  {
    DefaultSane();
    var eff, eff' := Effective(st), Effective(st');
    SlotsSameBytes(st.mem, st'.mem, eff.active);
    if eff' in {eff, w} {
      ImageOkDepends(st.mem, st'.mem, eff, eff', eff.active);
    }
  }

  /** The confirmed slot becomes home. */
  lemma Promoted(st: State, whole: bool, w: Meta, st': State)
    requires Inv(st) && st.phase.Running? && Confirmable(Effective(st), st.phase.slot)
    requires StateOk(st') && SlotsSame(st.mem, st'.mem) && LogOk(LogOf(st'.mem))
    requires w == ToStore(ConfirmedMeta(Effective(st), st.phase.slot), false)
    requires Effective(st') in {Effective(st), w, DefaultMeta()} && (whole ==> Effective(st') in {Effective(st), w})
    requires st'.phase == Off || st'.phase == st.phase
    ensures Kept(st, whole, st')
  {
    DefaultSane();
    var eff, eff', t := Effective(st), Effective(st'), st.phase.slot;
    ConfirmedSane(eff, t);
    SlotsSameBytes(st.mem, st'.mem, eff.active);
    SlotsSameBytes(st.mem, st'.mem, t);
    if eff' == eff {
      ImageOkDepends(st.mem, st'.mem, eff, eff, eff.active);
      ImageOkDepends(st.mem, st'.mem, eff, eff, t);
    } else if eff' == w {
      ImageOkDepends(st.mem, st'.mem, eff, w, t);
    }
  }

  // ---- The events one by one ----

  lemma StepReset(st: State, whole: bool)
    requires Inv(st)
    ensures Kept(st, whole, State(st.mem, Off))
  {
    OnlySelf(st.mem, Other(Home(st)));
    Unwritten(st, whole, State(st.mem, Off));
  }

  lemma StepIdle(st: State, whole: bool)
    requires Inv(st)
    ensures Kept(st, whole, st)
  {
    OnlySelf(st.mem, Other(Home(st)));
    Unwritten(st, whole, st);
  }

  lemma StepPowerOn(st: State, e: Event, whole: bool)
    requires Inv(st) && e.kind.PowerOn? && st.phase.Off? && CleanTear(st, e) && whole == OutsideCompaction(st, e)
    ensures Kept(st, whole, Next(st, e))
  {
    hide Committed, LogAfter, CutAt, Collides, LogOk;
    var st', es := Next(st, e), LogOf(st.mem);
    if Stored(es).Some? {
      assert st'.mem == st.mem;
      OnlySelf(st.mem, Other(Home(st)));
      Unwritten(st, whole, st');
    } else {
      var w := ToStore(DefaultMeta(), true);
      DefaultSane();
      SealedSane(DefaultMeta(), true);
      StoreEffect(st.mem, DefaultMeta(), true, e.ops);
      EffectiveAfter(st, e, w, st'.mem);
      MirrorsStored(DefaultMeta(), DefaultMeta());
      Rewritten(st, whole, w, st');
    }
  }

  lemma StepFrame(st: State, e: Event, whole: bool)
    requires Inv(st) && e.kind.Receive? && st.phase.Loader? && !CommitAccepted(st.phase.ctx, e.kind.frame)
    requires PrepareContained(st, e)
    ensures Kept(st, whole, Next(st, e))
  {
    var c, m, st' := st.phase.ctx, st.phase.meta, Next(st, e);
    HandleStays(st.mem, c, m, e.kind.frame, e.ops);
    Unwritten(st, whole, st');
  }

  lemma StepCommit(st: State, e: Event, whole: bool)
    requires Inv(st) && e.kind.Receive? && st.phase.Loader? && CommitAccepted(st.phase.ctx, e.kind.frame)
    requires CleanTear(st, e) && whole == OutsideCompaction(st, e)
    ensures Kept(st, whole, Next(st, e))
  {
    var c, m, st', eff := st.phase.ctx, st.phase.meta, Next(st, e), Effective(st);
    var w := ToStore(Proposed(c, m), true);
    HandleCommits(st.mem, c, m, e.kind.frame, e.ops);
    ProposedSane(c, m);
    SealedSane(Proposed(c, m), true);
    MirrorsStored(m, eff);
    FollowsProposed(c, m, eff);
    EffectiveAfter(st, e, w, st'.mem);
    Rewritten(st, whole, w, st');
  }

  lemma FollowsProposed(c: Ctx, m: Meta, eff: Meta)
    requires Mirrors(m, eff)
    ensures Follows(Some(eff), ToStore(Proposed(c, m), true).seqNo)
  {
  }

  lemma DecidedSane(mem: seq<byte>, m: Meta, eff: Meta)
    requires |mem| == FLASH_SIZE && Sane(m) && Mirrors(m, eff)
    ensures Sane(Decided(mem, m)) && Mirrors(Decided(mem, m), eff)
  {
    if IsSlot(m.pending) {
      RolledBackSane(m, eff);
      if m.attempts < MAX_BOOT_ATTEMPTS { TriedSane(m, eff); }
    }
  }

  lemma FallbackIsHome(mem: seq<byte>, m: Meta)
    requires |mem| == FLASH_SIZE && Sane(m)
    ensures Fallback(mem, m) == if ImageOk(mem, m, m.active) then Some(m.active) else None
  {
  }

  /** Where a decision ends and what it has committed on the way. */
  lemma LeaveEnds(st: State, ops: nat)
    requires StateOk(st) && st.phase.Loader? && !st.phase.stuck && Sane(st.phase.meta)
    ensures var m, st' := st.phase.meta, React(st, Leave, ops);
            && st'.mem == (if IsSlot(m.pending) then Store(st.mem, Decided(st.mem, m), true, ops).0 else st.mem)
            && !st'.phase.Off?
            && (st'.phase.Loader? ==> st'.phase == Loader(Decided(st.mem, m), IDLE, true))
            && (st'.phase.Running? ==> st'.phase.slot == if Trial(st.mem, m) then m.pending else m.active)
  {
    var m := st.phase.meta;
    FallbackIsHome(st.mem, m);
    if IsSlot(m.pending) {
      RolledBackSane(m, m);
      FallbackIsHome(Store(st.mem, Decided(st.mem, m), true, ops).0, RolledBack(m));
    }
  }

  lemma LeaveStores(st: State, e: Event)
    requires Inv(st) && e.kind.Leave? && st.phase.Loader? && !st.phase.stuck && IsSlot(st.phase.meta.pending)
    requires CleanTear(st, e)
    ensures var st', w := Next(st, e), ToStore(Decided(st.mem, st.phase.meta), true);
            && SlotsSame(st.mem, st'.mem) && LogOk(LogOf(st'.mem))
            && Effective(st') in {Effective(st), w, DefaultMeta()}
            && (Effective(st') !in {Effective(st), w} ==> e.cut && !OutsideCompaction(st, e))
  {
    var d := Decided(st.mem, st.phase.meta);
    LeaveEnds(st, e.ops);
    DecidedSane(st.mem, st.phase.meta, Effective(st));
    SealedSane(d, true);
    MirrorsStored(d, Effective(st));
    StoreEffect(st.mem, d, true, e.ops);
    EffectiveAfter(st, e, ToStore(d, true), Next(st, e).mem);
  }

  lemma StepLeave(st: State, e: Event, whole: bool)
    requires Inv(st) && e.kind.Leave? && st.phase.Loader? && !st.phase.stuck
    requires CleanTear(st, e) && (whole ==> OutsideCompaction(st, e))
    ensures Kept(st, whole, Next(st, e))
  {
    var m, st' := st.phase.meta, Next(st, e);
    LeaveEnds(st, e.ops);
    DecidedSane(st.mem, m, Effective(st));
    if !IsSlot(m.pending) {
      OnlySelf(st.mem, Other(Home(st)));
      Unwritten(st, whole, st');
    } else {
      LeaveStores(st, e);
      StepLeaveStored(st, whole, st', Decided(st.mem, m));
    }
  }

  lemma StepLeaveStored(st: State, whole: bool, st': State, d: Meta)
    requires Inv(st) && st.phase.Loader? && IsSlot(st.phase.meta.pending) && d == Decided(st.mem, st.phase.meta)
    requires StateOk(st') && SlotsSame(st.mem, st'.mem) && LogOk(LogOf(st'.mem))
    requires Effective(st') in {Effective(st), ToStore(d, true), DefaultMeta()}
    requires whole || !st'.phase.Off? ==> Effective(st') in {Effective(st), ToStore(d, true)}
    requires st'.phase.Loader? ==> st'.phase == Loader(d, IDLE, true)
    requires st'.phase.Running? ==>
      st'.phase.slot == if Trial(st.mem, st.phase.meta) then st.phase.meta.pending else st.phase.meta.active
    ensures Kept(st, whole, st')
  {
    var m, eff := st.phase.meta, Effective(st);
    DecidedSane(st.mem, m, eff);
    SealedSane(d, true);
    MirrorsStored(d, eff);
    if Trial(st.mem, m) && st'.phase.Running? { TrialStays(st, st'); }
    Rewritten(st, whole, ToStore(d, true), st');
  }

  /** The image check of a trial still holds for the metadata in force afterwards. */
  lemma TrialStays(st: State, st': State)
    requires StateOk(st) && StateOk(st') && st.phase.Loader? && SlotsSame(st.mem, st'.mem)
    requires Sane(st.phase.meta) && Mirrors(st.phase.meta, Effective(st)) && Trial(st.mem, st.phase.meta)
    requires Effective(st') in {Effective(st), ToStore(Tried(st.phase.meta), true)}
    ensures Effective(st').pending == st.phase.meta.pending
    ensures ImageOk(st'.mem, Effective(st'), st.phase.meta.pending)
  {
    var slot := st.phase.meta.pending;
    SlotsSameBytes(st.mem, st'.mem, slot);
    ImageOkDepends(st.mem, st'.mem, st.phase.meta, Effective(st'), slot);
  }

  lemma ConfirmWrites(st: State, e: Event)
    requires StateOk(st) && e.kind.SelfConfirm? && st.phase.Running? && Written(st, e.kind).Some?
    ensures Stored(LogOf(st.mem)) == Some(Effective(st)) && Confirmable(Effective(st), st.phase.slot)
    ensures Written(st, e.kind) == Some(ToStore(ConfirmedMeta(Effective(st), st.phase.slot), false))
    ensures Next(st, e).mem == Store(st.mem, ConfirmedMeta(Effective(st), st.phase.slot), false, e.ops).0
  {
    hide DefaultMeta, Committed, Seal, ConfirmedMeta, CutAt, Collides, Store, Handle, Decide, PowerUp;
  }

  lemma ConfirmStores(st: State, e: Event)
    requires Inv(st) && e.kind.SelfConfirm? && st.phase.Running? && CleanTear(st, e) && Written(st, e.kind).Some?
    ensures Confirmable(Effective(st), st.phase.slot)
    ensures var st', w := Next(st, e), ToStore(ConfirmedMeta(Effective(st), st.phase.slot), false);
            && SlotsSame(st.mem, st'.mem) && LogOk(LogOf(st'.mem))
            && Effective(st') in {Effective(st), w, DefaultMeta()}
            && (Effective(st') !in {Effective(st), w} ==> e.cut && !OutsideCompaction(st, e))
  {
    ConfirmWrites(st, e);
    ConfirmedSane(Effective(st), st.phase.slot);
    StoreEffect(st.mem, ConfirmedMeta(Effective(st), st.phase.slot), false, e.ops);
    EffectiveAfter(st, e, ToStore(ConfirmedMeta(Effective(st), st.phase.slot), false), Next(st, e).mem);
  }

  lemma StepConfirm(st: State, e: Event, whole: bool)
    requires Inv(st) && e.kind.SelfConfirm? && st.phase.Running? && CleanTear(st, e)
    requires whole ==> OutsideCompaction(st, e)
    ensures Kept(st, whole, Next(st, e))
  {
    hide Kept, Committed, Seal, DefaultMeta, ConfirmedMeta, LogOk, Handle, Decide, PowerUp, CutAt, Collides;
    var st' := Next(st, e);
    if Written(st, e.kind).None? {
      assert st'.mem == st.mem;
      OnlySelf(st.mem, Other(Home(st)));
      Unwritten(st, whole, st');
    } else {
      ConfirmStores(st, e);
      Promoted(st, whole, ToStore(ConfirmedMeta(Effective(st), st.phase.slot), false), st');
    }
  }

  lemma StepKept(st: State, e: Event)
    requires Inv(st) && Regular(st, e)
    ensures Kept(st, OutsideCompaction(st, e), Next(st, e))
  {
    var whole := OutsideCompaction(st, e);
    match e.kind
    case PowerOn =>
      if st.phase.Off? { StepPowerOn(st, e, whole); } else { StepStill(st, e, whole); }
    case Receive(f) =>
      if !st.phase.Loader? { StepStill(st, e, whole); }
      else if CommitAccepted(st.phase.ctx, f) { StepCommit(st, e, whole); }
      else { StepFrame(st, e, whole); }
    case Leave =>
      if st.phase.Loader? && !st.phase.stuck { StepLeave(st, e, whole); } else { StepStill(st, e, whole); }
    case SelfConfirm =>
      if st.phase.Running? { StepConfirm(st, e, whole); } else { StepStill(st, e, whole); }
    case Reset => StepReset(st, whole);
  }

  lemma StepStill(st: State, e: Event, whole: bool)
    requires Inv(st) && React(st, e.kind, e.ops) == st
    ensures Kept(st, whole, Next(st, e))
  {
    if e.cut { StepReset(st, whole); } else { StepIdle(st, whole); }
  }
}
