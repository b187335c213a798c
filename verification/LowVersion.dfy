/** A PREPARE refused for its version during a session: the version it announced is the one a COMMIT stores. */
module LowVersion {
  import opened Bytes
  import opened Crc
  import opened Flash
  import opened MetaRecord
  import opened MetaLog
  import opened MetaHistory
  import opened MetaStore
  import opened Session
  import opened Boot
  import opened Machine
  import opened Safety
  import opened Runs
  import opened Floors
  import opened Ledger
  import opened Theorems
  import opened EndToEnd
  import opened Overrun
  import opened InOrder

  /** A session, a refused PREPARE, a COMMIT, a boot of the committed image and its confirmation. */
  ghost predicate Relabelled(st: State, prepare: Event, commit: Event, on: Event, leave: Event, confirm: Event) {
    && Linked(st) && Refused(st, prepare) && PrepareContained(st, prepare)
    && var st1 := Next(st, prepare);
    && st1.phase.Loader? && Frames(commit, OTA_COMMIT) && ReplyTo(st1, commit).Ack?
    && on.kind.PowerOn? && !on.cut && leave.kind.Leave? && !leave.cut
    && var st3 := Next(Next(st1, commit), on);
    && CleanTear(st3, leave) && OutsideCompaction(st3, leave)
    && var st4 := Next(st3, leave);
    && st4.phase == Running(Other(Home(st))) && confirm.kind.SelfConfirm? && !confirm.cut && Finished(st4, confirm)
  }

  /** The refused PREPARE leaves the log alone and its version in the session. */
  lemma AfterRefusal(st: State, e: Event)
    requires Linked(st) && Refused(st, e) && PrepareContained(st, e)
    ensures var st' := Next(st, e);
            && Linked(st') && LogOf(st'.mem) == LogOf(st.mem) && st'.phase.meta == st.phase.meta
            && st'.phase.ctx == Announced(st.phase.ctx, e.kind.frame.payload)
  {
    RefusedPrepare(st, e);
    FrameKeepsLinked(st, e);
  }

  /** A pending image with this version, untried, whose record is the one loaded. */
  ghost predicate Awaits(st: State, slot: byte, version: u32) {
    && Inv(st) && IsSlot(slot) && Stored(LogOf(st.mem)) == Some(Effective(st))
    && Effective(st).pending == slot && ImageOf(Effective(st), slot).version == version
  }

  lemma ProposedVersion(c: Ctx, m: Meta)
    ensures ImageOf(ToStore(Proposed(c, m), true), SlotOf(c.target)).version == c.version
    ensures ToStore(Proposed(c, m), true).pending == SlotOf(c.target)
    ensures ToStore(Proposed(c, m), true).minVersion == m.minVersion
    ensures ToStore(Proposed(c, m), true).active == m.active
  {
  }

  lemma AfterRelabelledCommit(st: State, e: Event)
    requires Linked(st) && st.phase.ctx.active && Frames(e, OTA_COMMIT) && ReplyTo(st, e).Ack?
    ensures var st' := Next(st, e);
            && Awaits(st', Other(Home(st)), st.phase.ctx.version) && st'.phase.Off?
            && Home(st') == Home(st) && Effective(st').minVersion == Effective(st).minVersion
  {
    hide LogOk, LogOf, Next, Proposed, ToStore;
    AfterCommit(st, e);
    ProposedVersion(st.phase.ctx, st.phase.meta);
  }

  lemma AfterLoad(st: State, on: Event, slot: byte, version: u32)
    requires Awaits(st, slot, version) && st.phase.Off? && on.kind.PowerOn? && !on.cut
    ensures Next(st, on) == State(st.mem, Loader(Effective(st), IDLE, false)) && Inv(Next(st, on))
  {
    hide LogOk, Sane, LogOf;
  }

  lemma DecidedVersion(mem: seq<byte>, m: Meta)
    requires |mem| == FLASH_SIZE && IsSlot(m.pending) && Trial(mem, m)
    ensures var w := ToStore(Decided(mem, m), true);
            && w.pending == m.pending && ImageOf(w, m.pending).version == ImageOf(m, m.pending).version
            && w.active == m.active && w.minVersion == m.minVersion
  {
    hide ImageOk;
  }

  /** A boot on trial keeps the record's version, whichever record is loaded afterwards. */
  lemma AfterTrial(st: State, leave: Event, slot: byte, version: u32)
    requires Awaits(st, slot, version) && st.phase == Loader(Effective(st), IDLE, false)
    requires leave.kind.Leave? && !leave.cut && CleanTear(st, leave) && OutsideCompaction(st, leave)
    requires Next(st, leave).phase == Running(slot)
    ensures var st' := Next(st, leave);
            && Awaits(st', slot, version) && Home(st') == Home(st)
            && Effective(st').minVersion == Effective(st).minVersion
  {
    hide LogOk, LogOf, Decided, ToStore, Trial, LogAfter, Stored;
    var eff, w := Effective(st), ToStore(Decided(st.mem, Effective(st)), true);
    LeaveEnds(st, leave.ops);
    DecidedVersion(st.mem, eff);
    assert Written(st, leave.kind) == Some(w);
    hide Written, Sane, Valid;
    EventLog(st, leave);
    StillStored(LogOf(st.mem), w, leave.ops, eff);
    TrialKept(st, leave, w);
  }

  lemma TrialKept(st: State, leave: Event, w: Meta)
    requires Inv(st) && st.phase.Loader? && !st.phase.stuck && leave.kind.Leave? && !leave.cut
    requires CleanTear(st, leave) && OutsideCompaction(st, leave) && Written(st, leave.kind) == Some(w)
    ensures Inv(Next(st, leave)) && Effective(Next(st, leave)) in {Effective(st), w}
  {
    hide LogOf, LogOk, Sane, Valid, Written, Kept;
    EventLog(st, leave);
    EffectiveAfter(st, leave, w, Next(st, leave).mem);
    LeaveKeepsInv(st, leave);
  }

  lemma LeaveKeepsInv(st: State, leave: Event)
    requires Inv(st) && st.phase.Loader? && !st.phase.stuck && leave.kind.Leave?
    requires CleanTear(st, leave) && OutsideCompaction(st, leave)
    ensures Inv(Next(st, leave))
  {
    hide Inv, CleanTear;
    StepLeave(st, leave, true);
  }

  lemma StillStored(es: Log, w: Meta, ops: nat, held: Meta)
    requires LogOk(es) && Valid(w) && Follows(Stored(es), w.seqNo) && !Collides(w, CutAt(es, ops))
    requires Stored(es) == Some(held) && (Used(es) == RECORDS ==> ops == 0 || ops >= CommitOps(es))
    ensures Stored(LogAfter(es, w, ops)) == Some(Load(LogAfter(es, w, ops)))
  {
    hide LogOk, Valid, LogAfter;
    CommitOutcome(es, w, ops, false);
  }

  lemma AfterConfirm(st: State, confirm: Event, slot: byte, version: u32)
    requires Awaits(st, slot, version) && st.phase == Running(slot) && confirm.kind.SelfConfirm? && !confirm.cut
    requires Finished(st, confirm)
    ensures var st' := Next(st, confirm);
            && Home(st') == slot && ImageOf(Effective(st'), slot).version == version
            && Effective(st').minVersion >= Effective(st).minVersion && Effective(st').minVersion >= version
  {
    hide LogOk, LogOf, Stored;
    ConfirmedIsHome(st, confirm);
    ConfirmedSane(Effective(st), slot);
    ConfirmedVersion(Effective(st), slot);
  }

  lemma ConfirmedVersion(m: Meta, slot: byte)
    requires IsSlot(slot)
    ensures ImageOf(ToStore(ConfirmedMeta(m, slot), false), slot).version == ImageOf(m, slot).version
  {
  }

  /** The five events one by one: home stays until the confirmation, which brings the announced version. */
  lemma RelabelledEnds(st: State, prepare: Event, commit: Event, on: Event, leave: Event, confirm: Event)
    requires Relabelled(st, prepare, commit, on, leave, confirm)
    ensures var st1 := Next(st, prepare);
            var st2 := Next(st1, commit);
            var st3 := Next(st2, on);
            var st4 := Next(st3, leave);
            var st5 := Next(st4, confirm);
            var v := Announced(st.phase.ctx, prepare.kind.frame.payload).version;
            && Home(st1) == Home(st) && Home(st2) == Home(st) && Home(st3) == Home(st) && Home(st4) == Home(st)
            && Home(st5) == Other(Home(st)) != Home(st) && ImageOf(Effective(st5), Home(st5)).version == v
            && Effective(st5).minVersion >= Effective(st).minVersion && Effective(st5).minVersion >= v
  {
    hide Next, LogOf, LogOk, CleanTear, OutsideCompaction, Finished, PrepareContained, Handle;
    var v, slot := Announced(st.phase.ctx, prepare.kind.frame.payload).version, Other(Home(st));
    AfterRefusal(st, prepare);
    var st1 := Next(st, prepare);
    AfterRelabelledCommit(st1, commit);
    var st2 := Next(st1, commit);
    AfterLoad(st2, on, slot, v);
    AfterTrial(Next(st2, on), leave, slot, v);
    AfterConfirm(Next(Next(st2, on), leave), confirm, slot, v);
  }

  /** One more event of a run. */
  lemma {:induction false} PrefixOn(st: State, es: seq<Event>, k: nat)
    requires StateOk(st) && k < |es|
    ensures Run(st, es[..k + 1]) == Next(Run(st, es[..k]), es[k])
    ensures var before, after := Run(st, es[..k]), Next(Run(st, es[..k]), es[k]);
            var v := ImageOf(Effective(after), Home(after)).version;
            Confirmations(st, es[..k + 1])
            == Confirmations(st, es[..k]) + if Home(after) != Home(before) && v != 0 then [v] else []
  {
    hide Next, Effective, Home;
    assert es[..k + 1][..k] == es[..k];
  }

  /** The first k events lead to s and leave home where it is. */
  predicate Still(st: State, es: seq<Event>, k: nat, s: State)
    requires StateOk(st) && k <= |es|
  {
    Run(st, es[..k]) == s && Confirmations(st, es[..k]) == []
  }

  lemma StillOn(st: State, es: seq<Event>, k: nat, s: State)
    requires StateOk(st) && k < |es| && Still(st, es, k, s) && Home(Next(s, es[k])) == Home(s)
    ensures Still(st, es, k + 1, Next(s, es[k]))
  {
    hide Next, Effective, Home, Run, Confirmations;
    PrefixOn(st, es, k);
  }

  /** Four events that leave home where it is add nothing. */
  lemma FourEvents(st: State, es: seq<Event>, s1: State, s2: State, s3: State, s4: State)
    requires StateOk(st) && StateOk(s1) && StateOk(s2) && StateOk(s3) && |es| == 5
    requires s1 == Next(st, es[0]) && s2 == Next(s1, es[1]) && s3 == Next(s2, es[2]) && s4 == Next(s3, es[3])
    requires Home(s1) == Home(st) && Home(s2) == Home(s1) && Home(s3) == Home(s2) && Home(s4) == Home(s3)
    ensures Still(st, es, 4, s4)
  {
    hide Next, Effective, Home, Still, StateOk;
    NoEvents(st, es);
    StillOn(st, es, 0, st);
    StillOn(st, es, 1, s1);
    StillOn(st, es, 2, s2);
    StillOn(st, es, 3, s3);
  }

  /** Home moves at the last of five events. */
  lemma {:induction false} FifthMoves(st: State, es: seq<Event>, s4: State, s5: State, v: nat)
    requires StateOk(st) && |es| == 5 && Still(st, es, 4, s4)
    requires s5 == Next(s4, es[4]) && Home(s5) != Home(s4) && v == ImageOf(Effective(s5), Home(s5)).version
    ensures Run(st, es) == s5 && Confirmations(st, es) == if v != 0 then [v] else []
  {
    hide Run, Confirmations, Next, Effective, Home;
    PrefixOn(st, es, 4);
    assert es[..5] == es;
  }

  lemma {:induction false} NoEvents(st: State, es: seq<Event>)
    requires StateOk(st)
    ensures Still(st, es, 0, st)
  {
    assert es[..0] == [];
  }

  /**
   * A version below the floor in a refused PREPARE, followed by a COMMIT, a boot and its confirmation, becomes the
   * home slot's version. The confirmed versions of that run climb if and only if the PREPARE respected the floor.
   */
  lemma {:induction false} RelabelledFallsIff(st: State, prepare: Event, commit: Event, on: Event, leave: Event,
                                              confirm: Event)
    requires Relabelled(st, prepare, commit, on, leave, confirm)
    ensures var es := [prepare, commit, on, leave, confirm];
            Climbs(Confirmations(st, es), Effective(st).minVersion, Effective(Run(st, es)).minVersion)
            <==> AboveFloor(st, prepare)
  {
    hide Next, Effective, Home, AboveFloor, Run, Confirmations, Relabelled, Announced, Climbs, PrepareContained,
      Refused;
    RelabelledStart(st, prepare, commit, on, leave, confirm);
    var es := [prepare, commit, on, leave, confirm];
    var v := Announced(st.phase.ctx, prepare.kind.frame.payload).version;
    RelabelledEnds(st, prepare, commit, on, leave, confirm);
    FloorOfSession(st, prepare);
    var s1 := Next(st, prepare);
    var s2 := Next(s1, commit);
    var s3 := Next(s2, on);
    var s4 := Next(s3, leave);
    FourEvents(st, es, s1, s2, s3, s4);
    FifthMoves(st, es, s4, Next(s4, confirm), v);
    OneClimbsIff(v, Effective(st).minVersion, Effective(Next(s4, confirm)).minVersion);
  }

  lemma RelabelledStart(st: State, prepare: Event, commit: Event, on: Event, leave: Event, confirm: Event)
    requires Relabelled(st, prepare, commit, on, leave, confirm)
    ensures Linked(st) && Refused(st, prepare) && prepare.kind.Receive? && |prepare.kind.frame.payload| >= 12
  {
  }

  lemma OneClimbsIff(v: nat, lo: nat, hi: nat)
    requires v <= hi
    ensures Climbs(if v != 0 then [v] else [], lo, hi) <==> v == 0 || v >= lo
  {
    if v != 0 { assert [v][0] == v; }
  }

  lemma FloorOfSession(st: State, prepare: Event)
    requires Linked(st) && Refused(st, prepare)
    ensures var v := Announced(st.phase.ctx, prepare.kind.frame.payload).version;
            AboveFloor(st, prepare) <==> v == 0 || v >= Effective(st).minVersion
  {
    hide LogOf, LogOk, Handle;
  }

  // ---- The input that shows it ----

  /** A PREPARE for the image already received, which differs in nothing but a version below the floor. */
  predicate Relabels(st: State, e: Event, image: seq<byte>)
    requires StateOk(st) && st.phase.Loader?
  {
    && Frames(e, OTA_PREPARE) && |e.kind.frame.payload| >= 20
    && var p, m := e.kind.frame.payload, st.phase.meta;
       && ReadU32(p, 2) == |image| && ReadU32(p, 6) == Crc32(image) && 0 < ReadU16(p, 10) <= MAX_CHUNK
       && Target(m, p) == SlotBase(Other(m.active)) && 0 < ReadU32(p, 16) < MinAllowed(m)
  }

  lemma RollbackReply(mem: seq<byte>, c: Ctx, m: Meta, p: seq<byte>, ops: nat)
    requires |mem| == FLASH_SIZE && |p| >= 20 && Sane(m)
    requires 0 < ReadU32(p, 2) <= SLOT_SIZE && 0 < ReadU16(p, 10) <= MAX_CHUNK
    requires Target(m, p) == SlotBase(Other(m.active)) && 0 < ReadU32(p, 16) < MinAllowed(m)
    ensures Prepare(mem, c, m, p, ops)
         == Step(mem, Announced(c, p), m, Nack(ReadU16(p, 0), VersionRollback), false)
  {
    TargetIsAway(m, Target(m, p));
  }

  /** It is refused, yet the image stays verified, now under that version. */
  lemma RelabelsVerified(st: State, e: Event, image: seq<byte>)
    requires st.phase.Loader? && Verified(st, image, SlotBase(Other(st.phase.meta.active))) && Relabels(st, e, image)
    ensures Refused(st, e) && PrepareContained(st, e) && !AboveFloor(st, e) && Next(st, e).phase.Loader?
    ensures Verified(Next(st, e), image, SlotBase(Other(st.phase.meta.active)))
    ensures Next(st, e).phase.meta == st.phase.meta && Next(st, e).phase.ctx.expected == st.phase.ctx.expected
    ensures LogOf(Next(st, e).mem) == LogOf(st.mem)
  {
    hide LogOk, LogOf, Crc32, MinAllowed, LoaderVectorOk, Sane;
    var c, m, f := st.phase.ctx, st.phase.meta, e.kind.frame;
    RollbackReply(st.mem, c, m, f.payload, e.ops);
    assert Handle(st.mem, c, m, f, e.ops) == Prepare(st.mem, c, m, f.payload, e.ops);
    FrameKeepsLinked(st, e);
  }

  /** With power and flash obeying from then on, the five events of the run above follow. */
  lemma RelabelsRun(st: State, prepare: Event, commit: Event, on: Event, leave: Event, confirm: Event,
                    image: seq<byte>)
    requires st.phase.Loader? && Verified(st, image, SlotBase(Other(st.phase.meta.active))) && 4 <= |image|
    requires ReadU32(image, 0) < 0x2002_0000 && Relabels(st, prepare, image)
    requires Orders(commit, st.phase.ctx.expected) && commit.ops >= CommitOps(LogOf(st.mem))
    requires on.kind.PowerOn? && !on.cut && leave.kind.Leave? && !leave.cut && leave.ops > RECORD_SIZE
    requires confirm.kind.SelfConfirm? && !confirm.cut && confirm.ops > RECORD_SIZE
    ensures Relabelled(st, prepare, commit, on, leave, confirm)
  {
    VerifiedActive(st, image);
    hide LogOk, LogOf, Crc32, Effective, Next, Verified, Relabels, Handle, Sane;
    RelabelsVerified(st, prepare, image);
    var st1 := Next(st, prepare);
    VerifiedActive(st1, image);
    CommitAckedIff(st1, commit);
    CommittedBoots(st1, commit, on, leave, image);
    var st3 := Next(Next(st1, commit), on);
    EnoughOps(st3, leave);
    EnoughOps(Next(st3, leave), confirm);
  }

  /** A version below the floor is confirmed, at a real input: the confirmed versions of that run do fall. */
  lemma {:induction false} RelabelsFall(st: State, prepare: Event, commit: Event, on: Event, leave: Event,
                                        confirm: Event, image: seq<byte>)
    requires st.phase.Loader? && Verified(st, image, SlotBase(Other(st.phase.meta.active))) && 4 <= |image|
    requires ReadU32(image, 0) < 0x2002_0000 && Relabels(st, prepare, image)
    requires Orders(commit, st.phase.ctx.expected) && commit.ops >= CommitOps(LogOf(st.mem))
    requires on.kind.PowerOn? && !on.cut && leave.kind.Leave? && !leave.cut && leave.ops > RECORD_SIZE
    requires confirm.kind.SelfConfirm? && !confirm.cut && confirm.ops > RECORD_SIZE
    ensures var es := [prepare, commit, on, leave, confirm];
            !Climbs(Confirmations(st, es), Effective(st).minVersion, Effective(Run(st, es)).minVersion)
  {
    RelabelsVerified(st, prepare, image);
    RelabelsRun(st, prepare, commit, on, leave, confirm, image);
    hide *;
    RelabelledFallsIff(st, prepare, commit, on, leave, confirm);
  }

  lemma VerifiedActive(st: State, image: seq<byte>)
    requires st.phase.Loader? && Verified(st, image, SlotBase(Other(st.phase.meta.active)))
    ensures st.phase.ctx.active && Inv(st) && Linked(st) && Home(st) == st.phase.meta.active
  {
    hide LogOk, LogOf, Crc32;
  }

  /** One erase and one record are enough for any commit. */
  lemma EnoughOps(st: State, e: Event)
    requires StateOk(st) && e.ops > RECORD_SIZE
    ensures Finished(st, e) && CleanTear(st, e) && OutsideCompaction(st, e)
  {
    hide LogOf, Written;
  }
}
