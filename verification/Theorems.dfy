/** The main results about whole runs of the device. */
module Theorems {
  import opened Bytes
  import opened Flash
  import opened MetaRecord
  import opened MetaLog
  import opened MetaHistory
  import opened MetaStore
  import opened Session
  import opened Boot
  import opened Machine
  import opened Safety
  import opened Runs
  import opened Ledger
  import opened Floors
  import opened Verdicts

  /** A device whose metadata sector has just been erased. */
  lemma FreshDevice(mem: seq<byte>)
    requires |mem| == FLASH_SIZE && SectorOf(mem) == Blank(META_SIZE)
    ensures Inv(State(mem, Off))
  {
    hide Checksum, Seal;
    BlankSector();
    var es := LogOf(mem);
    assert es == Fill(RECORDS, Free);
    Compacted(RECORDS, Free);
    assert Fill(RECORDS, Free)[0 := Free] == es;
    assert Paced(es, Fill(RECORDS, 0), 0);
    DefaultSane();
  }

  /**
   * No regular run leaves the invariant. What is not regular: a torn record whose blank tail collides with an erased
   * checksum, a commit that fails with power on between the erase of a full sector and the end of its rewrite or at
   * its last clear bit, and a PREPARE in a session whose announced size reaches past slot A.
   */
  lemma {:induction false} RunKeeps(st: State, es: seq<Event>)
    requires Inv(st) && AllRegular(st, es)
    ensures Inv(Run(st, es))
    decreases |es|
  {
    if es != [] {
      var init, e := es[..|es| - 1], es[|es| - 1];
      RunKeeps(st, init);
      StepKept(Run(st, init), e);
    }
  }

  /** In every reachable state of the loader only the slot that is not home may be prepared. */
  lemma {:induction false} OnlyTheOtherSlotIsPrepared(st: State, es: seq<Event>, target: u32)
    requires Inv(st) && AllRegular(st, es) && Run(st, es).phase.Loader?
    ensures TargetAllowed(Run(st, es).phase.meta, target) <==> target == SlotBase(Other(Home(Run(st, es))))
  {
    RunKeeps(st, es);
    TargetIsAway(Run(st, es).phase.meta, target);
  }

  /** No event of any run erases or programs the home slot. */
  lemma {:induction false} HomeUntouched(st: State, es: seq<Event>, e: Event)
    requires Inv(st) && AllRegular(st, es) && Regular(Run(st, es), e)
    ensures SlotBytes(Next(Run(st, es), e).mem, Home(Run(st, es))) == SlotBytes(Run(st, es).mem, Home(Run(st, es)))
  {
    RunKeeps(st, es);
    StepKept(Run(st, es), e);
  }

  /** A non-decreasing sequence within bounds. */
  predicate Climbs(vs: seq<nat>, lo: nat, hi: nat) {
    && (forall i | 0 <= i < |vs| :: lo <= vs[i] <= hi)
    && (forall i, j | 0 <= i < j < |vs| :: vs[i] <= vs[j])
  }

  lemma ClimbsOn(vs: seq<nat>, v: nat, lo: nat, mid: nat, hi: nat)
    requires Climbs(vs, lo, mid) && lo <= mid <= hi
    ensures Climbs(vs + [], lo, hi)
    ensures mid <= v <= hi ==> Climbs(vs + [v], lo, hi)
  {
  }

  /** The numbers in a run so far: they climb from lo, and the greatest is the last. */
  predicate UpTo(landed: seq<nat>, lo: nat, top: nat) {
    lo <= top && Climbs(landed, lo, top) && top == if landed == [] then lo else landed[|landed| - 1]
  }

  lemma LandedStep(st: State, b: Book, e: Event, landed: seq<nat>, lo: nat)
    requires Inv(st) && CleanTear(st, e) && Booked(LogOf(st.mem), b) && UpTo(landed, lo, b.top)
    ensures Booked(LogOf(Next(st, e).mem), Posted(st, b, e))
    ensures var w := Written(st, e.kind);
            UpTo(landed + if w.Some? && Lands(LogOf(st.mem), w.value, e.ops) then [Posted(st, b, e).top] else [],
                 lo, Posted(st, b, e).top)
  {
    hide LogOk, Sane, Next, LogOf, Lands, HoleFree, Paced, Latest;
    EventPosted(st, b, e);
    ClimbsOn(landed, Posted(st, b, e).top, lo, b.top, Posted(st, b, e).top);
  }

  lemma LastEvent(st: State, b: Book, es: seq<Event>)
    requires StateOk(st) && |b.nums| == RECORDS && es != [] && AllRegular(st, es)
    ensures var init, e := es[..|es| - 1], es[|es| - 1];
            var before, r := Run(st, init), Books(st, b, init);
            var w := Written(before, e.kind);
            && AllRegular(st, init) && CleanTear(before, e)
            && Run(st, es) == Next(before, e) && Books(st, b, es) == Posted(before, r, e)
            && Landed(st, b, es) == Landed(st, b, init)
               + if w.Some? && Lands(LogOf(before.mem), w.value, e.ops) then [Posted(before, r, e).top] else []
  {
    hide Next, Posted, Written, Lands, LogOf, CleanTear, PrepareContained;
  }

  /** Along a run the numbers of the commits that land never fall, and the greatest is that of the last one. */
  lemma {:induction false} BooksKept(st: State, b: Book, es: seq<Event>)
    requires Inv(st) && AllRegular(st, es) && Booked(LogOf(st.mem), b)
    ensures Booked(LogOf(Run(st, es).mem), Books(st, b, es))
    ensures UpTo(Landed(st, b, es), b.top, Books(st, b, es).top)
    decreases |es|, 1
  {
    if es != [] {
      RunKeeps(st, es[..|es| - 1]);
      BooksKeptOn(st, b, es);
    }
  }

  lemma {:induction false} BooksKeptOn(st: State, b: Book, es: seq<Event>)
    requires Inv(st) && AllRegular(st, es) && Booked(LogOf(st.mem), b) && es != []
    requires Inv(Run(st, es[..|es| - 1]))
    ensures Booked(LogOf(Run(st, es).mem), Books(st, b, es))
    ensures UpTo(Landed(st, b, es), b.top, Books(st, b, es).top)
    decreases |es|, 0
  {
    hide Run, Books, Landed, UpTo, Next, Posted, Written, Lands, LogOf, LogOk, Sane, CleanTear;
    var init := es[..|es| - 1];
    LastEvent(st, b, es);
    hide AllRegular;
    BooksKept(st, b, init);
    LandedStep(Run(st, init), Books(st, b, init), es[|init|], Landed(st, b, init), b.top);
  }

  /**
   * After every run, however often the 16-bit serial number wraps, the record loaded is the earliest one whose
   * number is the greatest the run has assigned to a commit that landed.
   */
  lemma {:induction false} EffectiveIsNewest(st: State, b: Book, es: seq<Event>, j: nat)
    requires Inv(st) && AllRegular(st, es) && Booked(LogOf(st.mem), b)
    ensures var log, book := LogOf(Run(st, es).mem), Books(st, b, es);
            && Numbered(log, book.nums)
            && (Latest(log) == Some(j) <==> FirstGreatest(log, book.nums, Used(log), j))
            && (Latest(log) == Some(j) ==> book.nums[j] == book.top)
            && UpTo(Landed(st, b, es), b.top, book.top)
  {
    BooksKept(st, b, es);
    var log, book := LogOf(Run(st, es).mem), Books(st, b, es);
    var lo: nat :| Paced(log, book.nums, lo);
    PacedWindow(log, book.nums, lo);
    ScanFindsGreatest(log, book.nums, j);
  }

  // ---- No brick ----

  predicate AllWhole(st: State, es: seq<Event>)
    requires StateOk(st)
    decreases |es|
  {
    es == [] || (AllWhole(st, es[..|es| - 1]) && OutsideCompaction(Run(st, es[..|es| - 1]), es[|es| - 1]))
  }

  lemma {:induction false} RunStaysBootable(st: State, es: seq<Event>)
    requires Inv(st) && Bootable(st) && AllRegular(st, es) && AllWhole(st, es)
    ensures Bootable(Run(st, es))
    decreases |es|
  {
    if es != [] {
      var init, e := es[..|es| - 1], es[|es| - 1];
      RunKeeps(st, init);
      RunStaysBootable(st, init);
      StepKept(Run(st, init), e);
    }
  }

  lemma BootLoads(st: State, on: Event)
    requires Inv(st) && Bootable(st) && st.phase.Off? && on.kind.PowerOn? && !on.cut
    ensures Next(st, on) == State(st.mem, Loader(Effective(st), IDLE, false))
    ensures Inv(Next(st, on)) && Bootable(Next(st, on))
  {
    EmptyIsNotBootable(st);
    PowerLoads(st, on);
    hide Next, ImageOk, LogOk, Sane, LogOf;
  }

  lemma PowerLoads(st: State, on: Event)
    requires StateOk(st) && Stored(LogOf(st.mem)) == Some(Effective(st))
    requires st.phase.Off? && on.kind.PowerOn? && !on.cut
    ensures Next(st, on) == State(st.mem, Loader(Effective(st), IDLE, false))
  {
    hide LogOf, Stored, Effective;
  }

  lemma BootDecides(loading: State, leave: Event)
    requires Inv(loading) && Bootable(loading) && loading.phase.Loader? && !loading.phase.stuck
    requires loading.phase.meta == Effective(loading) && leave.kind.Leave? && !leave.cut
    requires CleanTear(loading, leave) && OutsideCompaction(loading, leave)
    ensures var st' := Next(loading, leave);
            && st'.phase.Running? && ImageOk(st'.mem, Effective(st'), st'.phase.slot)
  {
    hide ImageOk, LogOk, Sane, LogOf, Decide;
    StepKept(loading, leave);
    LeavesHome(loading, leave.ops);
  }

  /** From a bootable device that is off, a boot ends in a slot whose bytes are a startable image as recorded. */
  lemma BootSucceeds(st: State, on: Event, leave: Event)
    requires Inv(st) && Bootable(st) && st.phase.Off?
    requires on.kind.PowerOn? && !on.cut && leave.kind.Leave? && !leave.cut
    requires CleanTear(Next(st, on), leave) && OutsideCompaction(Next(st, on), leave)
    ensures var st' := Next(Next(st, on), leave);
            && st'.phase.Running? && SoundIn(st'.mem, Effective(st'), st'.phase.slot)
  {
    hide ImageOk, SoundIn;
    BootLoads(st, on);
    BootDecides(Next(st, on), leave);
    var st' := Next(Next(st, on), leave);
    CheckMeans(st'.mem, Effective(st'), st'.phase.slot);
  }

  lemma EmptyIsNotBootable(st: State)
    requires StateOk(st) && Bootable(st)
    ensures Stored(LogOf(st.mem)) == Some(Effective(st))
  {
    assert DefaultMeta().imageA.size == 0;
  }

  lemma LeavesHome(st: State, ops: nat)
    requires Inv(st) && st.phase.Loader? && !st.phase.stuck && st.phase.meta == Effective(st)
    requires ImageOk(st.mem, st.phase.meta, st.phase.meta.active)
    ensures React(st, Leave, ops).phase.Running?
  {
    hide ImageOk, LogAfter, LogOk, ToStore, Committed;
    var m := st.phase.meta;
    FallbackIsHome(st.mem, m);
    if IsSlot(m.pending) && !Trial(st.mem, m) {
      RolledBackSane(m, m);
      var mem' := Store(st.mem, RolledBack(m), true, ops).0;
      StoreEffect(st.mem, RolledBack(m), true, ops);
      SlotsSameBytes(st.mem, mem', m.active);
      ImageOkDepends(st.mem, mem', m, RolledBack(m), m.active);
      FallbackIsHome(mem', RolledBack(m));
    }
  }

  function Unpowered(st: State): (r: State)
    requires StateOk(st)
    ensures StateOk(r)
  {
    State(st.mem, Off)
  }

  /** Whatever happened, power-cycling a device that was bootable reaches a slot with an intact image. */
  lemma {:induction false} NoBrick(st: State, es: seq<Event>, on: Event, leave: Event)
    requires Inv(st) && Bootable(st) && AllRegular(st, es) && AllWhole(st, es)
    requires on.kind.PowerOn? && !on.cut && leave.kind.Leave? && !leave.cut
    requires CleanTear(Next(Unpowered(Run(st, es)), on), leave)
    requires OutsideCompaction(Next(Unpowered(Run(st, es)), on), leave)
    ensures var booted := Next(Next(Unpowered(Run(st, es)), on), leave);
            booted.phase.Running? && SoundIn(booted.mem, Effective(booted), booted.phase.slot)
  {
    RunKeeps(st, es);
    RunStaysBootable(st, es);
    StepReset(Run(st, es), true);
    BootSucceeds(Unpowered(Run(st, es)), on, leave);
  }

  /** The commit of a confirmation supersedes the record it was made from, across serial number wrap-around. */
  lemma ConfirmationLands(es: Log, m: Meta, w: Meta, ops: nat)
    requires LogOk(es) && Stored(es) == Some(m) && Valid(w) && w.seqNo == Next16(m.seqNo) && ops >= CommitOps(es)
    ensures Stored(LogAfter(es, w, ops)) == Some(w)
  {
    hide Valid, LogAfter, Stored, Used;
    CommitDone(es, w, ops);
    assert Newer(w.seqNo, m.seqNo);
  }

  /** A finished confirmation of the slot an application runs from makes that slot home. */
  lemma ConfirmedIsHome(st: State, e: Event)
    requires Inv(st) && st.phase.Running? && e.kind.SelfConfirm? && !e.cut && Finished(st, e)
    requires Stored(LogOf(st.mem)) == Some(Effective(st)) && Confirmable(Effective(st), st.phase.slot)
    ensures Stored(LogOf(Next(st, e).mem)) == Some(ToStore(ConfirmedMeta(Effective(st), st.phase.slot), false))
    ensures Effective(Next(st, e)) == ToStore(ConfirmedMeta(Effective(st), st.phase.slot), false)
    ensures Home(Next(st, e)) == st.phase.slot && SlotsSame(st.mem, Next(st, e).mem)
  {
    hide Valid, Seal, Committed, ImageOk, LogOk, Sane, LogAfter, Stored;
    var eff, slot := Effective(st), st.phase.slot;
    var m := ConfirmedMeta(eff, slot);
    ConfirmWrites(st, e);
    ConfirmedSane(eff, slot);
    StoreEffect(st.mem, m, false, e.ops);
    ConfirmedSeq(eff, slot);
    ConfirmationLands(LogOf(st.mem), eff, ToStore(m, false), e.ops);
    LoadedIs(LogOf(Next(st, e).mem), ToStore(m, false));
  }

  lemma LoadedIs(es: Log, w: Meta)
    requires Stored(es) == Some(w)
    ensures Load(es) == w
  {
  }

  /** An image that runs on trial and confirms itself becomes home, and the device is bootable from then on. */
  lemma ConfirmedIsBootable(st: State, e: Event)
    requires Inv(st) && st.phase.Running? && e.kind.SelfConfirm? && !e.cut && Finished(st, e)
    requires Stored(LogOf(st.mem)) == Some(Effective(st)) && Confirmable(Effective(st), st.phase.slot)
    requires ImageOk(st.mem, Effective(st), st.phase.slot)
    ensures Bootable(Next(st, e)) && Home(Next(st, e)) == st.phase.slot
    ensures Stored(LogOf(Next(st, e).mem)) == Some(Effective(Next(st, e)))
  {
    hide Valid, Seal, Committed, ImageOk, LogOk, Sane, LogAfter, Stored, LogOf;
    var eff, slot := Effective(st), st.phase.slot;
    var w := ToStore(ConfirmedMeta(eff, slot), false);
    ConfirmedIsHome(st, e);
    ConfirmedSane(eff, slot);
    SlotsSameBytes(st.mem, Next(st, e).mem, slot);
    ImageOkDepends(st.mem, Next(st, e).mem, eff, w, slot);
  }

  lemma ConfirmedSeq(m: Meta, slot: byte)
    ensures ToStore(ConfirmedMeta(m, slot), false).seqNo == Next16(m.seqNo)
  {
  }

  // ---- The version floor ----

  /** Nonzero versions of the slots that became home, in order. */
  function Confirmations(st: State, es: seq<Event>): seq<u32>
    requires StateOk(st)
    decreases |es|
  {
    if es == [] then []
    else
      var before, after := Run(st, es[..|es| - 1]), Run(st, es);
      var version := ImageOf(Effective(after), Home(after)).version;
      Confirmations(st, es[..|es| - 1]) + (if Home(after) != Home(before) && version != 0 then [version] else [])
  }

  predicate AllAboveFloor(st: State, es: seq<Event>)
    requires StateOk(st)
    decreases |es|
  {
    es == [] || (AllAboveFloor(st, es[..|es| - 1]) && AboveFloor(Run(st, es[..|es| - 1]), es[|es| - 1]))
  }

  /** The last event of a run, as the conditions on the run see it. */
  lemma LastOfRun(st: State, es: seq<Event>)
    requires StateOk(st) && es != []
    ensures var init, e := es[..|es| - 1], es[|es| - 1];
            var before := Run(st, init);
            && Run(st, es) == Next(before, e)
            && (AllRegular(st, es) ==> AllRegular(st, init) && Regular(before, e))
            && (AllWhole(st, es) ==> AllWhole(st, init) && OutsideCompaction(before, e))
            && (AllAboveFloor(st, es) ==> AllAboveFloor(st, init) && AboveFloor(before, e))
  {
    hide Next, Regular, OutsideCompaction, AboveFloor;
  }

  lemma {:induction false} FloorsKept(st: State, es: seq<Event>)
    requires Inv(st) && AllRegular(st, es) && FloorKept(st) && AllAboveFloor(st, es)
    ensures FloorKept(Run(st, es))
    decreases |es|, 1
  {
    if es != [] {
      RunKeeps(st, es[..|es| - 1]);
      FloorsOn(st, es);
    }
  }

  lemma FloorsOn(st: State, es: seq<Event>)
    requires Inv(st) && AllRegular(st, es) && FloorKept(st) && AllAboveFloor(st, es) && es != []
    requires Inv(Run(st, es[..|es| - 1]))
    ensures FloorKept(Run(st, es))
    decreases |es|, 0
  {
    hide Run, AllRegular, AllAboveFloor, Next, LogOf, LogOk, Sane, FloorKept, AboveFloor, CleanTear;
    var init := es[..|es| - 1];
    LastOfRun(st, es);
    FloorsKept(st, init);
    FloorStep(Run(st, init), es[|init|]);
  }

  /** One event, seen by the versions that have become home so far. */
  lemma HomeClimbs(before: Meta, after: Meta, vs: seq<u32>, lo: u32)
    requires Advances(before, after) && Floored(before) && IsSlot(before.active) && lo <= before.minVersion
    requires before.pending in {SLOT_NONE, Other(before.active)} && IsSlot(after.active)
    requires Climbs(vs, lo, before.minVersion)
    ensures var v := ImageOf(after, after.active).version;
            Climbs(vs + if after.active != before.active && v != 0 then [v] else [], lo, after.minVersion)
  {
    ClimbsOn(vs, ImageOf(after, after.active).version, lo, before.minVersion, after.minVersion);
  }

  lemma EventAdvances(st: State, e: Event)
    requires Inv(st) && Regular(st, e) && OutsideCompaction(st, e)
    ensures Advances(Effective(st), Effective(Next(st, e)))
    ensures Sane(Effective(st)) && Sane(Effective(Next(st, e)))
  {
    hide Next, LogOf, LogOk, Sane, Advances, CleanTear;
    StepKept(st, e);
  }

  /** The floor never falls in runs that lose no metadata to a cut compaction. */
  lemma {:induction false} FloorNeverFalls(st: State, es: seq<Event>)
    requires Inv(st) && AllRegular(st, es) && AllWhole(st, es)
    ensures Effective(Run(st, es)).minVersion >= Effective(st).minVersion
    decreases |es|
  {
    hide Next, LogOf, LogOk, Sane, Effective, Regular, OutsideCompaction;
    if es != [] {
      var init := es[..|es| - 1];
      RunKeeps(st, init);
      FloorNeverFalls(st, init);
      EventAdvances(Run(st, init), es[|init|]);
    }
  }

  /** What one event adds to the versions that have become home. */
  lemma HomeStep(before: State, after: State, vs: seq<u32>, lo: u32)
    requires StateOk(before) && StateOk(after) && Sane(Effective(before)) && Sane(Effective(after))
    requires Floored(Effective(before)) && Advances(Effective(before), Effective(after))
    requires lo <= Effective(before).minVersion && Climbs(vs, lo, Effective(before).minVersion)
    ensures var v := ImageOf(Effective(after), Home(after)).version;
            Climbs(vs + if Home(after) != Home(before) && v != 0 then [v] else [], lo, Effective(after).minVersion)
  {
    hide Effective, Advances, Climbs;
    HomeClimbs(Effective(before), Effective(after), vs, lo);
  }

  lemma {:induction false} LastConfirmation(st: State, es: seq<Event>)
    requires StateOk(st) && es != []
    ensures var before, after := Run(st, es[..|es| - 1]), Run(st, es);
            var v := ImageOf(Effective(after), Home(after)).version;
            Confirmations(st, es) == Confirmations(st, es[..|es| - 1])
                                     + if Home(after) != Home(before) && v != 0 then [v] else []
  {
    hide Run, Effective;
  }

  /**
   * If moreover no PREPARE announces a version below the floor during a session, the nonzero versions that get
   * confirmed never decrease.
   */
  lemma {:induction false} VersionsNeverFall(st: State, es: seq<Event>)
    requires Inv(st) && AllRegular(st, es) && AllWhole(st, es) && FloorKept(st) && AllAboveFloor(st, es)
    ensures Climbs(Confirmations(st, es), Effective(st).minVersion, Effective(Run(st, es)).minVersion)
    decreases |es|, 1
  {
    if es != [] {
      var init := es[..|es| - 1];
      LastOfRun(st, es);
      RunKeeps(st, init);
      FloorsKept(st, init);
      VersionsOn(st, es);
    }
  }

  lemma VersionsOn(st: State, es: seq<Event>)
    requires Inv(st) && AllRegular(st, es) && AllWhole(st, es) && FloorKept(st) && AllAboveFloor(st, es) && es != []
    requires Inv(Run(st, es[..|es| - 1])) && Floored(Effective(Run(st, es[..|es| - 1])))
    ensures Climbs(Confirmations(st, es), Effective(st).minVersion, Effective(Run(st, es)).minVersion)
    decreases |es|, 0
  {
    hide Run, AllRegular, AllWhole, AllAboveFloor, Next, LogOf, LogOk, Sane, Effective, Regular, FloorKept, Climbs,
      Confirmations, Advances, OutsideCompaction;
    var init := es[..|es| - 1];
    LastOfRun(st, es);
    FloorNeverFalls(st, init);
    VersionsNeverFall(st, init);
    EventAdvances(Run(st, init), es[|init|]);
    LastConfirmation(st, es);
    HomeStep(Run(st, init), Run(st, es), Confirmations(st, init), Effective(st).minVersion);
  }
}
