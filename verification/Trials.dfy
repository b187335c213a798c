/** How often an image that never confirms is booted on trial. */
module Trials {
  import opened Bytes
  import opened Flash
  import opened MetaRecord
  import opened MetaLog
  import opened MetaHistory
  import opened MetaStore
  import opened Session
  import opened Boot
  import opened Machine
  import opened Safety
  import opened Runs
  import opened Theorems

  /** Enough flash operations for any commit. */
  const ALL: nat := 61

  const ON := Event(PowerOn, ALL, false)
  const LEAVE := Event(Leave, ALL, false)

  /** Power off, power on and boot, with every flash operation succeeding and no frame arriving. */
  function PowerCycle(st: State): (r: State)
    requires StateOk(st)
    ensures StateOk(r)
  {
    Next(Next(Unpowered(st), ON), LEAVE)
  }

  /** How many of the next n power cycles end in the given slot. */
  function Boots(st: State, slot: byte, n: nat): nat
    requires StateOk(st)
    decreases n
  {
    if n == 0 then 0
    else (if PowerCycle(st).phase == Running(slot) then 1 else 0) + Boots(PowerCycle(st), slot, n - 1)
  }

  /** Trials left with `a` attempts recorded and u slots used: one per free slot, and one per rewrite. */
  function Rounds(a: nat, u: nat): int {
    if a >= MAX_BOOT_ATTEMPTS then 0 else (MAX_BOOT_ATTEMPTS - a) * RECORDS - u + 1
  }

  /** The same, where a stored serial number 0 makes the first append visible. */
  function Allowance(a: nat, u: nat, seqNo: u16): int {
    if a < MAX_BOOT_ATTEMPTS && seqNo == 0 && u < RECORDS then 1 + Rounds(a + 1, u + 1) else Rounds(a, u)
  }

  lemma AllowanceSpent(a: nat, u: nat, seqNo: u16)
    requires a < MAX_BOOT_ATTEMPTS && 1 <= u <= RECORDS
    ensures Allowance(a, u, seqNo) > 0
    ensures u < RECORDS && seqNo != 0 ==> Allowance(a, u + 1, seqNo) == Allowance(a, u, seqNo) - 1
    ensures u < RECORDS && seqNo == 0 ==> Allowance(a + 1, u + 1, 1) == Allowance(a, u, seqNo) - 1
    ensures u == RECORDS ==> Allowance(a + 1, 1, if seqNo == 0 then 1 else seqNo) == Allowance(a, u, seqNo) - 1
    ensures Allowance(a, u, seqNo) <= MAX_BOOT_ATTEMPTS * RECORDS
  {
  }

  /** The exact number of trial boots ahead of a device. */
  function TrialsLeft(st: State, slot: byte): int
    requires StateOk(st)
  {
    var eff := Effective(st);
    if eff.pending == slot && ImageOk(st.mem, eff, slot)
    then Allowance(eff.attempts, Used(LogOf(st.mem)), eff.seqNo) else 0
  }

  /** A device with metadata, seen from the slot that is not home. */
  ghost predicate Watched(st: State, slot: byte) {
    Inv(st) && Stored(LogOf(st.mem)) == Some(Effective(st)) && slot == Other(Home(st))
  }

  /** The device once it has loaded its metadata. */
  function Loaded(st: State): (r: State)
    requires StateOk(st)
    ensures StateOk(r)
  {
    State(st.mem, Loader(Effective(st), IDLE, false))
  }

  lemma CycleLoads(st: State, slot: byte)
    requires Watched(st, slot)
    ensures Inv(Loaded(st)) && PowerCycle(st) == Next(Loaded(st), LEAVE)
    ensures CleanTear(Loaded(st), LEAVE) && OutsideCompaction(Loaded(st), LEAVE)
  {
    assert Next(Unpowered(st), ON) == Loaded(st);
    assert Mirrors(Effective(st), Effective(st));
  }

  /** One boot with something pending: what is committed, and where it ends. */
  lemma CycleCommits(st: State, slot: byte)
    requires Watched(st, slot) && Effective(st).pending == slot
    ensures var eff, st' := Effective(st), PowerCycle(st);
            var w := ToStore(Decided(st.mem, eff), true);
            && SlotsSame(st.mem, st'.mem) && Inv(st')
            && LogOf(st'.mem) == LogAfter(LogOf(st.mem), w, ALL)
            && (st'.phase == Running(slot) <==> Trial(st.mem, eff))
            && Sane(w) && Valid(w) && w.active == eff.active
  {
    hide PowerCycle, Kept, LogAfter, ImageOk;
    var eff := Effective(st);
    CycleLoads(st, slot);
    DecidedSane(st.mem, eff, eff);
    SealedSane(Decided(st.mem, eff), true);
    LeaveEnds(Loaded(st), ALL);
    StoreEffect(st.mem, Decided(st.mem, eff), true, ALL);
    StepLeave(Loaded(st), LEAVE, true);
  }

  lemma CycleIdle(st: State, slot: byte)
    requires Watched(st, slot) && Effective(st).pending != slot
    ensures PowerCycle(st).mem == st.mem && PowerCycle(st).phase != Running(slot) && Inv(PowerCycle(st))
  {
    CycleLoads(st, slot);
    LeaveEnds(Loaded(st), ALL);
    StepLeave(Loaded(st), LEAVE, true);
  }

  /** A finished commit of w over a sector whose newest record is m. */
  lemma CommitOver(es: Log, m: Meta, w: Meta)
    requires LogOk(es) && Stored(es) == Some(m) && Valid(w)
    requires w.seqNo == if m.seqNo == 0 then 1 else m.seqNo
    ensures var t := LogAfter(es, w, ALL);
            && Used(t) == (if Used(es) < RECORDS then Used(es) + 1 else 1)
            && Stored(t) == Some(if Used(es) < RECORDS && m.seqNo != 0 then m else w)
  {
    hide Valid, LogAfter, Stored, Used;
    CommitDone(es, w, ALL);
    assert Newer(1, 0) && !Newer(m.seqNo, m.seqNo);
  }

  /** The log after one boot with something pending. */
  lemma CycleLog(st: State, slot: byte)
    requires Watched(st, slot) && Effective(st).pending == slot
    ensures var eff, es, es' := Effective(st), LogOf(st.mem), LogOf(PowerCycle(st).mem);
            var w := ToStore(Decided(st.mem, eff), true);
            && Watched(PowerCycle(st), slot)
            && Used(es') == (if Used(es) < RECORDS then Used(es) + 1 else 1)
            && Effective(PowerCycle(st)) == (if Used(es) < RECORDS && eff.seqNo != 0 then eff else w)
  {
    hide PowerCycle, Decided, ToStore, LogAfter;
    var eff, es := Effective(st), LogOf(st.mem);
    CycleCommits(st, slot);
    DecidedSeq(st.mem, eff);
    CommitOver(es, eff, ToStore(Decided(st.mem, eff), true));
  }

  lemma DecidedSeq(mem: seq<byte>, m: Meta)
    requires |mem| == FLASH_SIZE
    ensures ToStore(Decided(mem, m), true).seqNo == if m.seqNo == 0 then 1 else m.seqNo
  {
  }

  /** Trials are left exactly when the next boot is one. */
  lemma LeftIffTrial(st: State, slot: byte)
    requires Watched(st, slot)
    ensures TrialsLeft(st, slot) > 0 <==> Effective(st).pending == slot && Trial(st.mem, Effective(st))
    ensures 0 <= TrialsLeft(st, slot) <= MAX_BOOT_ATTEMPTS * RECORDS
  {
    var eff := Effective(st);
    UsedPositive(LogOf(st.mem));
    if eff.attempts < MAX_BOOT_ATTEMPTS {
      AllowanceSpent(eff.attempts, Used(LogOf(st.mem)), eff.seqNo);
    }
  }

  lemma TrialSpends(st: State, slot: byte)
    requires Watched(st, slot) && Effective(st).pending == slot && Trial(st.mem, Effective(st))
    ensures TrialsLeft(PowerCycle(st), slot) == TrialsLeft(st, slot) - 1
  {
    hide PowerCycle, Allowance, Tried, ToStore, ImageOk, LogOk, Sane, LogOf, Stored, Load, Used;
    var eff, st' := Effective(st), PowerCycle(st);
    UsedPositive(LogOf(st.mem));
    AllowanceSpent(eff.attempts, Used(LogOf(st.mem)), eff.seqNo);
    CycleCommits(st, slot);
    CycleLog(st, slot);
    SlotsSameBytes(st.mem, st'.mem, slot);
    TriedPayload(eff, slot);
    ImageOkDepends(st.mem, st'.mem, eff, Effective(st'), slot);
  }

  lemma TriedPayload(m: Meta, slot: byte)
    requires m.attempts < MAX_BOOT_ATTEMPTS
    ensures var w := ToStore(Tried(m), true);
            && w.pending == m.pending && SamePayload(w, m, slot) && w.attempts == m.attempts + 1
            && w.seqNo == if m.seqNo == 0 then 1 else m.seqNo
  {
  }

  /** Once a boot is no trial, no later one is. */
  lemma RestStays(st: State, slot: byte)
    requires Watched(st, slot) && Effective(st).pending == slot && !Trial(st.mem, Effective(st))
    ensures TrialsLeft(PowerCycle(st), slot) == 0
  {
    var eff, st' := Effective(st), PowerCycle(st);
    CycleCommits(st, slot);
    CycleLog(st, slot);
    SlotsSameBytes(st.mem, st'.mem, slot);
    if Effective(st') == eff {
      ImageOkDepends(st.mem, st'.mem, eff, eff, slot);
    }
    LeftIffTrial(st', slot);
  }

  /** One power cycle uses up exactly one of the trials left, while there are any. */
  lemma CycleSpends(st: State, slot: byte)
    requires Watched(st, slot)
    ensures Watched(PowerCycle(st), slot)
    ensures PowerCycle(st).phase == Running(slot) <==> TrialsLeft(st, slot) > 0
    ensures TrialsLeft(PowerCycle(st), slot) == if TrialsLeft(st, slot) > 0 then TrialsLeft(st, slot) - 1 else 0
  {
    LeftIffTrial(st, slot);
    if Effective(st).pending != slot {
      CycleIdle(st, slot);
    } else {
      CycleCommits(st, slot);
      CycleLog(st, slot);
      if Trial(st.mem, Effective(st)) { TrialSpends(st, slot); } else { RestStays(st, slot); }
    }
  }

  lemma UsedPositive(es: Log)
    requires Stored(es).Some?
    ensures Used(es) >= 1
  {
  }

  /**
   * An image that never confirms is tried exactly as often as the metadata log allows: attempts are recorded
   * only when the sector is rewritten, so the three intended trials become up to three sectors' worth.
   */
  lemma {:induction false} TrialsCounted(st: State, slot: byte, n: nat)
    requires Watched(st, slot)
    ensures Boots(st, slot, n) == if n < TrialsLeft(st, slot) then n else TrialsLeft(st, slot)
    decreases n, 1
  {
    hide PowerCycle, TrialsLeft, Trial, Effective, LogOk, Sane;
    LeftIffTrial(st, slot);
    if n > 0 {
      CycleSpends(st, slot);
      CountedOn(st, PowerCycle(st), slot, n);
    }
  }

  lemma {:induction false} CountedOn(st: State, st': State, slot: byte, n: nat)
    requires Watched(st', slot) && StateOk(st) && n > 0 && st' == PowerCycle(st)
    requires st'.phase == Running(slot) <==> TrialsLeft(st, slot) > 0
    requires TrialsLeft(st', slot) == if TrialsLeft(st, slot) > 0 then TrialsLeft(st, slot) - 1 else 0
    requires TrialsLeft(st, slot) >= 0
    ensures Boots(st, slot, n) == if n < TrialsLeft(st, slot) then n else TrialsLeft(st, slot)
    decreases n, 0
  {
    hide PowerCycle, TrialsLeft, Watched, StateOk;
    TrialsCounted(st', slot, n - 1);
  }

  lemma {:induction false} TrialsBounded(st: State, slot: byte, n: nat)
    requires Watched(st, slot)
    ensures Boots(st, slot, n) <= MAX_BOOT_ATTEMPTS * RECORDS
  {
    TrialsCounted(st, slot, n);
    LeftIffTrial(st, slot);
  }

  /** The intended bound holds exactly when the log is that close to its last rewrite. */
  lemma {:induction false} IntendedBoundIff(st: State, slot: byte)
    requires Watched(st, slot)
    ensures (forall n: nat :: Boots(st, slot, n) <= MAX_BOOT_ATTEMPTS) <==> TrialsLeft(st, slot) <= MAX_BOOT_ATTEMPTS
  {
    hide Boots, TrialsLeft;
    forall n: nat ensures Boots(st, slot, n) == if n < TrialsLeft(st, slot) then n else TrialsLeft(st, slot) {
      TrialsCounted(st, slot, n);
    }
    if TrialsLeft(st, slot) > MAX_BOOT_ATTEMPTS {
      assert Boots(st, slot, MAX_BOOT_ATTEMPTS + 1) == MAX_BOOT_ATTEMPTS + 1;
    }
  }

  /** A freshly committed image in a sector with room to spare is tried more often than intended. */
  lemma {:induction false} FreshImageExceeds(st: State, slot: byte)
    requires Watched(st, slot) && Effective(st).pending == slot && Effective(st).attempts == 0
    requires ImageOk(st.mem, Effective(st), slot) && Effective(st).seqNo != 0
    ensures Boots(st, slot, MAX_BOOT_ATTEMPTS + 1) == MAX_BOOT_ATTEMPTS + 1
  {
    UsedPositive(LogOf(st.mem));
    TrialsCounted(st, slot, MAX_BOOT_ATTEMPTS + 1);
  }

  // ---- The intended bound, had each boot commit taken the next serial number ----

  function Bumped(m: Meta): Meta {
    m.(seqNo := Next16(m.seqNo))
  }

  /** Flash after a boot whose commit takes the next serial number. */
  function BumpedBoot(mem: seq<byte>): (r: seq<byte>)
    requires |mem| == FLASH_SIZE
    ensures |r| == FLASH_SIZE
  {
    var m := Load(LogOf(mem));
    if !IsSlot(m.pending) then mem else Store(mem, Bumped(Decided(mem, m)), true, ALL).0
  }

  /** The next boot is a trial. */
  predicate TriesNext(mem: seq<byte>)
    requires |mem| == FLASH_SIZE
  {
    Trial(mem, Load(LogOf(mem)))
  }

  /** How many of the next n such boots are trials. */
  function BumpedTrials(mem: seq<byte>, n: nat): nat
    requires |mem| == FLASH_SIZE
    decreases n
  {
    if n == 0 then 0 else (if TriesNext(mem) then 1 else 0) + BumpedTrials(BumpedBoot(mem), n - 1)
  }

  ghost predicate Held(mem: seq<byte>, m: Meta) {
    |mem| == FLASH_SIZE && LogOk(LogOf(mem)) && Stored(LogOf(mem)) == Some(m) && Sane(m)
  }

  /** Trials left when every attempt is remembered. */
  function AttemptsLeft(mem: seq<byte>, m: Meta): nat
    requires |mem| == FLASH_SIZE
  {
    if Trial(mem, m) then MAX_BOOT_ATTEMPTS - m.attempts else 0
  }

  lemma BumpedFollows(m: Meta, w: Meta)
    requires w.seqNo == if Next16(m.seqNo) == 0 then 1 else Next16(m.seqNo)
    ensures Follows(Some(m), w.seqNo) && Newer(w.seqNo, m.seqNo)
  {
  }

  lemma BumpedSane(mem: seq<byte>, m: Meta)
    requires |mem| == FLASH_SIZE && Sane(m)
    ensures var w := ToStore(Bumped(Decided(mem, m)), true);
            && Sane(w) && Valid(w) && w.seqNo == (if Next16(m.seqNo) == 0 then 1 else Next16(m.seqNo))
            && (Trial(mem, m) ==>
                  w.pending == m.pending && w.attempts == m.attempts + 1 && SamePayload(w, m, m.pending))
            && (!Trial(mem, m) && IsSlot(m.pending) ==> w.pending == SLOT_NONE)
  {
    DecidedSane(mem, m, m);
    SealedSane(Bumped(Decided(mem, m)), true);
  }

  lemma BumpedHeld(mem: seq<byte>, m: Meta)
    requires Held(mem, m) && IsSlot(m.pending)
    ensures Held(BumpedBoot(mem), ToStore(Bumped(Decided(mem, m)), true)) && SlotsSame(mem, BumpedBoot(mem))
  {
    var d := Bumped(Decided(mem, m));
    var es, w := LogOf(mem), ToStore(d, true);
    BumpedSane(mem, m);
    BumpedFollows(m, w);
    StoreEffect(mem, d, true, ALL);
    hide Sane, Valid, LogAfter, Decided, ToStore, LogOk, Stored, Follows, Newer;
    assert !Collides(w, CutAt(es, ALL));
    CommitOutcome(es, w, ALL, false);
    LogIsWhole(es);
    CommitDone(es, w, ALL);
  }

  lemma LogIsWhole(es: Log)
    requires LogOk(es)
    ensures |es| == RECORDS && HoleFree(es)
  {
  }

  /** The metadata such a boot leaves behind. */
  function AfterBump(mem: seq<byte>, m: Meta): Meta
    requires |mem| == FLASH_SIZE
  {
    if IsSlot(m.pending) then ToStore(Bumped(Decided(mem, m)), true) else m
  }

  lemma BumpedLeft(mem: seq<byte>, m: Meta, mem': seq<byte>, w: Meta)
    requires |mem| == FLASH_SIZE && |mem'| == FLASH_SIZE && SlotsSame(mem, mem') && IsSlot(m.pending)
    requires if Trial(mem, m)
             then w.pending == m.pending && w.attempts == m.attempts + 1 && SamePayload(w, m, m.pending)
             else w.pending == SLOT_NONE
    ensures AttemptsLeft(mem', w) == if AttemptsLeft(mem, m) > 0 then AttemptsLeft(mem, m) - 1 else 0
  {
    if Trial(mem, m) {
      SlotsSameBytes(mem, mem', m.pending);
      ImageOkDepends(mem, mem', m, w, m.pending);
    }
  }

  lemma BumpedStep(mem: seq<byte>, m: Meta)
    requires Held(mem, m)
    ensures Held(BumpedBoot(mem), AfterBump(mem, m))
    ensures AttemptsLeft(BumpedBoot(mem), AfterBump(mem, m))
         == if AttemptsLeft(mem, m) > 0 then AttemptsLeft(mem, m) - 1 else 0
  {
    hide Trial, Decided, ToStore, LogOf, LogOk, AttemptsLeft, SlotsSame;
    if IsSlot(m.pending) {
      BumpedHeld(mem, m);
      BumpedSane(mem, m);
      BumpedLeft(mem, m, BumpedBoot(mem), AfterBump(mem, m));
    } else {
      NoneLeft(mem, m);
    }
  }

  lemma NoneLeft(mem: seq<byte>, m: Meta)
    requires |mem| == FLASH_SIZE && !IsSlot(m.pending)
    ensures AttemptsLeft(mem, m) == 0
  {
  }

  lemma TriesWhileLeft(mem: seq<byte>, m: Meta)
    requires Held(mem, m)
    ensures TriesNext(mem) <==> AttemptsLeft(mem, m) > 0
    ensures AttemptsLeft(mem, m) <= MAX_BOOT_ATTEMPTS
  {
  }

  /** Then an image that never confirms is tried exactly as often as it has attempts left: at most three times. */
  lemma {:induction false} BumpedBounded(mem: seq<byte>, m: Meta, n: nat)
    requires Held(mem, m)
    ensures BumpedTrials(mem, n) == (if n < AttemptsLeft(mem, m) then n else AttemptsLeft(mem, m)) <= MAX_BOOT_ATTEMPTS
    decreases n, 1
  {
    TriesWhileLeft(mem, m);
    if n > 0 {
      BumpedStep(mem, m);
      BumpedCountedOn(mem, m, BumpedBoot(mem), AfterBump(mem, m), n);
    }
  }

  lemma {:induction false} BumpedCountedOn(mem: seq<byte>, m: Meta, mem': seq<byte>, m': Meta, n: nat)
    requires |mem| == FLASH_SIZE && mem' == BumpedBoot(mem) && Held(mem', m') && n > 0
    requires TriesNext(mem) <==> AttemptsLeft(mem, m) > 0
    requires AttemptsLeft(mem', m') == if AttemptsLeft(mem, m) > 0 then AttemptsLeft(mem, m) - 1 else 0
    ensures BumpedTrials(mem, n) == if n < AttemptsLeft(mem, m) then n else AttemptsLeft(mem, m)
    decreases n, 0
  {
    hide BumpedBoot, TriesNext, AttemptsLeft, Held;
    BumpedBounded(mem', m', n - 1);
  }
}
