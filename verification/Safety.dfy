/** What every regular run keeps: one trusted home slot that nothing erases or programs. */
module Safety {
  import opened Bytes
  import opened Flash
  import opened MetaRecord
  import opened MetaLog
  import opened MetaHistory
  import opened MetaStore
  import opened Session
  import opened Boot
  import opened Machine

  // ---- One commit, seen through the whole flash ----

  lemma StoreEffect(mem: seq<byte>, m: Meta, inLoader: bool, ops: nat)
    requires |mem| == FLASH_SIZE
    ensures var mem' := Store(mem, m, inLoader, ops).0;
            && LogOf(mem') == LogAfter(LogOf(mem), ToStore(m, inLoader), ops)
            && SlotsSame(mem, mem')
  {
    var w := ToStore(m, inLoader);
    SectorRoundTrip(mem, Committed(SectorOf(mem), w, ops), SectorOf(mem));
    CommitRefines(SectorOf(mem), w, ops);
    SectorAside(mem, Committed(SectorOf(mem), w, ops));
  }

  /** Everything behind the metadata sector is as it was. */
  ghost predicate SlotsSame(mem: seq<byte>, mem': seq<byte>)
    requires |mem| == FLASH_SIZE && |mem'| == FLASH_SIZE
  {
    mem[SECTOR_AT + META_SIZE..] == mem'[SECTOR_AT + META_SIZE..]
  }

  lemma SectorAside(mem: seq<byte>, s: seq<byte>)
    requires |mem| == FLASH_SIZE && IsSector(s)
    ensures SlotsSame(mem, WithSector(mem, s))
  {
  }

  lemma SlotsSameBytes(mem: seq<byte>, mem': seq<byte>, slot: byte)
    requires |mem| == FLASH_SIZE && |mem'| == FLASH_SIZE && SlotsSame(mem, mem')
    ensures SlotBytes(mem, slot) == SlotBytes(mem', slot)
  {
    var k := SECTOR_AT + META_SIZE;
    assert forall i | k <= i < FLASH_SIZE :: mem[i] == mem[k..][i - k] == mem'[k..][i - k] == mem'[i];
  }

  /** The image check depends on the metadata and on the slot's own bytes only. */
  lemma ImageOkDepends(mem: seq<byte>, mem': seq<byte>, m: Meta, m': Meta, slot: byte)
    requires |mem| == FLASH_SIZE && |mem'| == FLASH_SIZE
    requires SlotBytes(mem, slot) == SlotBytes(mem', slot)
    requires ImageOf(m, slot).size == ImageOf(m', slot).size && ImageOf(m, slot).crc == ImageOf(m', slot).crc
    ensures ImageOk(mem, m, slot) == ImageOk(mem', m', slot)
  {
    var at, size := SlotAt(slot), ImageOf(m, slot).size;
    ReadInSlice(mem, at, at + SLOT_SIZE, 0);
    ReadInSlice(mem, at, at + SLOT_SIZE, 4);
    ReadInSlice(mem', at, at + SLOT_SIZE, 0);
    ReadInSlice(mem', at, at + SLOT_SIZE, 4);
    if size <= SLOT_SIZE {
      TakeSlice(mem, at, at + SLOT_SIZE, size);
      TakeSlice(mem', at, at + SLOT_SIZE, size);
    }
  }

  // ---- The metadata invariant ----

  /** Active and confirmed agree on a usable slot; only the other slot may be pending. */
  predicate Sane(m: Meta) {
    && m.magic == META_MAGIC && m.schema == META_SCHEMA
    && IsSlot(m.active) && m.confirmed == m.active
    && ImageOf(m, m.active).state in {IMG_VALID, IMG_CONFIRMED}
    && m.pending in {SLOT_NONE, Other(m.active)}
    && (m.pending != SLOT_NONE ==> ImageOf(m, m.pending).state == IMG_PENDING)
  }

  predicate SamePayload(m: Meta, n: Meta, slot: byte) {
    ImageOf(m, slot).size == ImageOf(n, slot).size && ImageOf(m, slot).crc == ImageOf(n, slot).crc
  }

  /** How the loader's RAM copy may differ from what flash would yield. */
  predicate Mirrors(m: Meta, eff: Meta) {
    && m.active == eff.active
    && SamePayload(m, eff, m.active)
    && (m.pending != SLOT_NONE ==> eff.pending == m.pending && SamePayload(m, eff, m.pending))
    && m.minVersion == eff.minVersion
    && (m.seqNo == eff.seqNo || (m.seqNo == 0 && eff.seqNo == 1))
  }

  predicate SessionSafe(c: Ctx, m: Meta) {
    Contained(c) && (c.active ==> c.target == SlotBase(Other(m.active)))
  }

  /** Records in use form a prefix of the log, and their commit numbers are paced. */
  ghost predicate LogOk(es: Log) {
    |es| == RECORDS && HoleFree(es) && exists nums, lo: nat :: Paced(es, nums, lo)
  }

  ghost predicate Inv(st: State) {
    && StateOk(st)
    && LogOk(LogOf(st.mem))
    && Sane(Effective(st))
    && (st.phase.Loader? ==>
          && Sane(st.phase.meta) && Mirrors(st.phase.meta, Effective(st))
          && SessionSafe(st.phase.ctx, st.phase.meta))
  }

  lemma SealedSane(m: Meta, inLoader: bool)
    requires Sane(m)
    ensures Sane(ToStore(m, inLoader)) && Valid(ToStore(m, inLoader))
  {
    SealedIsValid(if inLoader && m.seqNo == 0 then m.(seqNo := 1) else m);
  }

  lemma DefaultSane()
    ensures Sane(DefaultMeta())
  {
  }

  /** What one commit of w can do to the effective metadata. */
  lemma CommitOutcome(es: Log, w: Meta, ops: nat, cut: bool)
    requires LogOk(es) && Valid(w) && Follows(Stored(es), w.seqNo) && !Collides(w, CutAt(es, ops))
    ensures LogOk(LogAfter(es, w, ops))
    ensures var t := LogAfter(es, w, ops);
            && Stored(t) in {Stored(es), Some(w), None}
            && (Stored(t) == None ==> Stored(es) == None || (Used(es) == RECORDS && 0 < ops < CommitOps(es)))
            && (ops >= CommitOps(es) && Used(es) < RECORDS ==> Stored(t) == Supersede(Stored(es), w))
            && (ops >= CommitOps(es) && Used(es) == RECORDS ==> Stored(t) == Some(w))
            && (ops < CommitOps(es) && Used(es) < RECORDS && TornEntry(w, CutAt(es, ops)) != Good(w) ==>
                  Stored(t) == Stored(es))
            && (ops == 0 ==> Stored(t) == Stored(es))
  {
    var nums, lo: nat :| Paced(es, nums, lo);
    NextSteps(es, nums, 0, w.seqNo);
    var lo' := CommitKeepsPace(es, nums, lo, w, ops, NextNumber(es, nums, 0, w.seqNo));
    var e := CutEntry(es, w, ops);
    AfterEntry(es, e, ops);
    if Used(es) < RECORDS {
      assert LogAfter(es, w, ops)[Used(es)] == e;
    }
  }

  // ---- Writes to the slots ----

  /** Outside slot `slot` nothing differs. */
  ghost predicate OnlySlot(mem: seq<byte>, mem': seq<byte>, slot: byte)
    requires |mem| == FLASH_SIZE && |mem'| == FLASH_SIZE
  {
    LogOf(mem') == LogOf(mem) && SlotBytes(mem', Other(slot)) == SlotBytes(mem, Other(slot))
  }

  /** Where the other slot's bytes begin behind this slot, or flash ends. */
  function Reach(slot: byte): nat {
    if slot == SLOT_B then FLASH_SIZE else SlotAt(slot) + SLOT_SIZE
  }

  lemma AsideOfSlot(mem: seq<byte>, mem': seq<byte>, slot: byte)
    requires |mem| == FLASH_SIZE && |mem'| == FLASH_SIZE && IsSlot(slot)
    requires forall i | 0 <= i < FLASH_SIZE && !(SlotAt(slot) <= i < Reach(slot)) :: mem'[i] == mem[i]
    ensures OnlySlot(mem, mem', slot)
  {
    var at, a, b := SlotAt(Other(slot)), SlotBytes(mem, Other(slot)), SlotBytes(mem', Other(slot));
    assert SectorOf(mem') == SectorOf(mem);
    assert forall i | 0 <= i < SLOT_SIZE :: b[i] == mem'[at + i] && a[i] == mem[at + i];
  }

  lemma WipeStays(mem: seq<byte>, slot: byte, n: nat)
    requires |mem| == FLASH_SIZE && IsSlot(slot) && n <= SLOT_SIZE
    ensures OnlySlot(mem, Wiped(mem, SlotAt(slot), n), slot)
  {
    AsideOfSlot(mem, Wiped(mem, SlotAt(slot), n), slot);
  }

  lemma ProgramStays(mem: seq<byte>, slot: byte, offset: nat, d: seq<byte>, n: nat)
    requires |mem| == FLASH_SIZE && IsSlot(slot) && n <= |d| && SlotAt(slot) + offset + n <= Reach(slot)
    ensures OnlySlot(mem, Programmed(mem, SlotAt(slot) + offset, d, n), slot)
  {
    AsideOfSlot(mem, Programmed(mem, SlotAt(slot) + offset, d, n), slot);
  }

  /** Cells behind the end of flash do not exist. */
  lemma ProgramPast(mem: seq<byte>, at: nat, d: seq<byte>, n: nat)
    requires |mem| == FLASH_SIZE && n <= |d| && SlotAt(SLOT_B) <= at
    ensures OnlySlot(mem, Programmed(mem, at, d, n), SLOT_B)
  {
    AsideOfSlot(mem, Programmed(mem, at, d, n), SLOT_B);
  }

  // ---- Frames ----

  lemma OnlySelf(mem: seq<byte>, slot: byte)
    requires |mem| == FLASH_SIZE
    ensures OnlySlot(mem, mem, slot)
  {
  }

  lemma PrepareStays(mem: seq<byte>, c: Ctx, m: Meta, p: seq<byte>, ops: nat)
    requires |mem| == FLASH_SIZE && Sane(m) && SessionSafe(c, m)
    ensures OnlySlot(mem, Prepare(mem, c, m, p, ops).mem, Other(m.active))
    ensures (|p| >= 12 ==> Contained(Announced(c, p))) ==> SessionSafe(Prepare(mem, c, m, p, ops).ctx, m)
  {
    OnlySelf(mem, Other(m.active));
    if |p| >= 12 && PrepareObjection(Announced(c, p), m, Target(m, p)).None? {
      TargetIsAway(m, Target(m, p));
      WipeStays(mem, Other(m.active), SLOT_SECTOR * Min(ops, 3));
    }
  }

  /** With one live, agreed slot the two-dead-slots exception cannot fire: only the other slot may be a target. */
  lemma TargetIsAway(m: Meta, target: u32)
    requires Sane(m)
    ensures TargetAllowed(m, target) <==> target == SlotBase(Other(m.active))
  {
  }

  lemma DataStays(mem: seq<byte>, c: Ctx, m: Meta, p: seq<byte>, ops: nat)
    requires |mem| == FLASH_SIZE && Sane(m) && CtxOk(c) && SessionSafe(c, m)
    ensures OnlySlot(mem, Data(mem, c, m, p, ops).mem, Other(m.active))
    ensures SessionSafe(Data(mem, c, m, p, ops).ctx, m)
  {
    OnlySelf(mem, Other(m.active));
    if c.active && |p| >= 8 && !IsDuplicate(c, p) && DataObjection(c, p).None? {
      var d := p[8..];
      var at, n := Index(c.target) + c.offset, Min(ops, |d|);
      assert |d| <= c.chunk && c.offset + |d| <= c.size;
      if at + n <= Reach(Other(m.active)) {
        ProgramStays(mem, Other(m.active), c.offset, d, n);
      } else {
        ProgramPast(mem, at, d, n);
      }
    }
  }

  /** Frames that commit nothing stay in the other slot and keep the session inside it. */
  lemma HandleStays(mem: seq<byte>, c: Ctx, m: Meta, f: Frame, ops: nat)
    requires |mem| == FLASH_SIZE && Sane(m) && CtxOk(c) && SessionSafe(c, m) && !CommitAccepted(c, f)
    ensures var s := Handle(mem, c, m, f, ops);
            && OnlySlot(mem, s.mem, Other(m.active)) && s.meta == m && !s.reset
            && ((f.kind == OTA_PREPARE && |f.payload| >= 12 ==> Contained(Announced(c, f.payload))) ==>
                  SessionSafe(s.ctx, m))
  {
    OnlySelf(mem, Other(m.active));
    if f.kind == OTA_PREPARE {
      assert Handle(mem, c, m, f, ops) == Prepare(mem, c, m, f.payload, ops);
      PrepareStays(mem, c, m, f.payload, ops);
    } else if f.kind == OTA_DATA {
      assert Handle(mem, c, m, f, ops) == Data(mem, c, m, f.payload, ops);
      DataStays(mem, c, m, f.payload, ops);
    } else if f.kind == OTA_VERIFY {
      assert Handle(mem, c, m, f, ops) == Verify(mem, c, m, f.payload);
    }
  }

  /** A COMMIT that is taken up stores the proposal and resets exactly when the store succeeds. */
  lemma HandleCommits(mem: seq<byte>, c: Ctx, m: Meta, f: Frame, ops: nat)
    requires |mem| == FLASH_SIZE && CtxOk(c) && CommitAccepted(c, f)
    ensures var s, w := Handle(mem, c, m, f, ops), ToStore(Proposed(c, m), true);
            && LogOf(s.mem) == LogAfter(LogOf(mem), w, ops) && SlotsSame(mem, s.mem)
            && s.reset == (ops >= CommitOps(LogOf(mem)))
            && (!s.reset ==> s.meta == m && s.ctx == c)
  {
    assert Handle(mem, c, m, f, ops) == Commit(mem, c, m, f.payload, ops);
    StoreEffect(mem, Proposed(c, m), true, ops);
  }

  // ---- Effective metadata across one commit ----

  /** After a regular commit of w the next load yields the old metadata or w, or the default after a cut compaction. */
  lemma EffectiveAfter(st: State, e: Event, w: Meta, mem': seq<byte>)
    requires StateOk(st) && LogOk(LogOf(st.mem)) && |mem'| == FLASH_SIZE
    requires Written(st, e.kind) == Some(w) && CleanTear(st, e)
    requires Valid(w) && Follows(Stored(LogOf(st.mem)), w.seqNo)
    requires LogOf(mem') == LogAfter(LogOf(st.mem), w, e.ops)
    ensures LogOk(LogOf(mem'))
    ensures Load(LogOf(mem')) in {Effective(st), w, DefaultMeta()}
    ensures Load(LogOf(mem')) !in {Effective(st), w} ==> e.cut && !OutsideCompaction(st, e)
    ensures !e.cut && !Finished(st, e) ==> Load(LogOf(mem')) == Effective(st)
    ensures Finished(st, e) && Used(LogOf(st.mem)) == RECORDS ==> Stored(LogOf(mem')) == Some(w)
    ensures Finished(st, e) && Used(LogOf(st.mem)) < RECORDS ==>
              Stored(LogOf(mem')) == Supersede(Stored(LogOf(st.mem)), w)
  {
    hide LogOk, LogOf, Valid, LogAfter, Stored, Used;
    CommitOutcome(LogOf(st.mem), w, e.ops, e.cut);
  }

  /** The RAM copy, or a record made from it under the same serial number, still mirrors whichever is effective. */
  lemma MirrorsStored(m: Meta, eff: Meta)
    requires Sane(m) && Mirrors(m, eff)
    ensures Mirrors(m, ToStore(m, true))
    ensures Follows(Some(eff), ToStore(m, true).seqNo)
    ensures Follows(Some(eff), ToStore(m.(seqNo := Next16(m.seqNo)), true).seqNo)
  {
  }

  lemma RolledBackSane(m: Meta, eff: Meta)
    requires Sane(m) && Mirrors(m, eff) && m.pending != SLOT_NONE
    ensures Sane(RolledBack(m)) && Mirrors(RolledBack(m), eff)
    ensures SamePayload(RolledBack(m), m, m.active)
  {
  }

  lemma TriedSane(m: Meta, eff: Meta)
    requires Sane(m) && Mirrors(m, eff) && m.pending != SLOT_NONE && m.attempts < MAX_BOOT_ATTEMPTS
    ensures Sane(Tried(m)) && Mirrors(Tried(m), eff)
  {
  }

  lemma ProposedSane(c: Ctx, m: Meta)
    requires Sane(m) && SessionSafe(c, m) && c.active
    ensures Sane(Proposed(c, m)) && Proposed(c, m).active == m.active
    ensures SamePayload(Proposed(c, m), m, m.active) && Proposed(c, m).minVersion == m.minVersion
    ensures Proposed(c, m).seqNo == Next16(m.seqNo) && Proposed(c, m).pending == Other(m.active)
  {
  }

  lemma ConfirmedSane(m: Meta, slot: byte)
    requires Sane(m) && IsSlot(slot) && Confirmable(m, slot)
    ensures slot == Other(m.active)
    ensures var w := ToStore(ConfirmedMeta(m, slot), false);
            && Sane(w) && Valid(w) && w.active == slot && SamePayload(w, m, slot)
            && w.minVersion in {m.minVersion, ImageOf(m, slot).version}
            && w.minVersion >= m.minVersion && w.minVersion >= ImageOf(m, slot).version
            && Follows(Some(m), w.seqNo)
  {
    SealedSane(ConfirmedMeta(m, slot), false);
  }
}
