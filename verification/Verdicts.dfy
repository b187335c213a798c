/** What the boot decision amounts to, read off the bytes of the slots and the fields of the metadata. */
module Verdicts {
  import opened Bytes
  import opened Crc
  import opened Flash
  import opened MetaRecord
  import opened Session
  import opened Boot
  import opened Machine
  import opened Safety

  // ---- The image check ----

  /** The mask leaves exactly bit 29 and bits 17 to 27 of the stack pointer. */
  lemma {:induction false} MaskMeans(sp: u32)
    ensures And(sp, SP_MASK) == 0x2000_0000 <==> sp % 0x1000_0000 < 0x2_0000 && sp / 0x2000_0000 % 2 == 1
  {
    var q := sp / 0x2_0000;
    var r := q / 0x800;
    MaskShifts(sp);
    SecondBit(r);
    hide And;
    assert r / 2 == sp / 0x2000_0000 && q % 0x800 == sp % 0x1000_0000 / 0x2_0000;
  }

  lemma {:induction false} MaskShifts(sp: u32)
    ensures And(sp, SP_MASK) == 0x2_0000 * (0x800 * And(sp / 0x2_0000 / 0x800, 2) + sp / 0x2_0000 % 0x800)
  {
    var q := sp / 0x2_0000;
    Pow2Values();
    assert Pow2(11) == 0x800;
    hide And, Shl, Shr, Pow2;
    ShlTimes(0x17FF, 17);
    ShlTimes(2, 11);
    ShrDivides(sp, 17);
    ShrDivides(q, 11);
    AndShift(sp, 0x17FF, 17);
    AndLowOnes(q, 2, 11);
    ShlTimes(And(q / 0x800, 2), 11);
    ShlTimes(And(q, 0x17FF), 17);
  }

  lemma {:induction false} SecondBit(r: nat)
    ensures And(r, 2) == 2 * (r / 2 % 2)
  {
    assert And(r / 2, 1) == r / 2 % 2 by { if r / 2 > 0 { assert And(r / 2 / 2, 0) == 0; } }
  }

  /** The first word is a plausible stack pointer, the second an address in flash. */
  predicate Startable(image: seq<byte>) {
    && |image| >= 8
    && ReadU32(image, 0) % 0x1000_0000 < 0x2_0000 && ReadU32(image, 0) / 0x2000_0000 % 2 == 1
    && 0x0800_0000 <= ReadU32(image, 4) < 0x0810_0000
  }

  /** A slot's bytes hold an image of this size and checksum that can be started. */
  predicate Sound(bytes: seq<byte>, size: nat, crc: u32) {
    0 < size <= |bytes| && Startable(bytes) && Crc32(bytes[..size]) == crc
  }

  /** Slot A is 0x60000 bytes from 0x08020000 on, slot B as many from 0x08080000 on. */
  predicate SoundIn(mem: seq<byte>, m: Meta, slot: byte)
    requires |mem| == FLASH_SIZE
  {
    if slot == 1 then Sound(mem[0x8_0000..0xE_0000], m.imageB.size, m.imageB.crc)
    else Sound(mem[0x2_0000..0x8_0000], m.imageA.size, m.imageA.crc)
  }

  lemma VectorMeans(mem: seq<byte>, slot: byte)
    requires |mem| == FLASH_SIZE
    ensures BootVectorOk(mem, SlotBase(slot)) <==> Startable(SlotBytes(mem, slot))
  {
    var at := SlotAt(slot);
    ReadInSlice(mem, at, at + SLOT_SIZE, 0);
    ReadInSlice(mem, at, at + SLOT_SIZE, 4);
    MaskMeans(ReadU32(mem, at));
    hide And;
  }

  /** The boot check accepts a slot exactly when its bytes are a startable image of the recorded size and checksum. */
  lemma CheckMeans(mem: seq<byte>, m: Meta, slot: byte)
    requires |mem| == FLASH_SIZE
    ensures ImageOk(mem, m, slot) <==> SoundIn(mem, m, slot)
  {
    var at, size := SlotAt(slot), ImageOf(m, slot).size;
    VectorMeans(mem, slot);
    hide BootVectorOk, Startable, Crc32;
    if size <= SLOT_SIZE { TakeSlice(mem, at, at + SLOT_SIZE, size); }
  }

  // ---- The decision ----

  /** Nothing pending, no attempts, one more rollback, and the state of the slot given up. */
  function GivenUp(m: Meta): Meta {
    var rollback: u32 := 4;
    var a, b := m.imageA, m.imageB;
    m.(imageA := if m.pending == 1 then a else Image(a.version, a.size, a.crc, rollback),
       imageB := if m.pending == 1 then Image(b.version, b.size, b.crc, rollback) else b,
       pending := 0xFF, attempts := 0,
       rollbacks := if m.rollbacks == 0xFFFF_FFFF then 0 else m.rollbacks + 1)
  }

  /** The pending slot is sound and has been tried fewer than three times. */
  predicate Tries(mem: seq<byte>, m: Meta)
    requires |mem| == FLASH_SIZE
  {
    (m.pending == 0 || m.pending == 1) && SoundIn(mem, m, m.pending) && m.attempts < 3
  }

  /** Where a boot ends without a trial: in a sound active slot, else in a sound confirmed one, else nowhere. */
  function Trusted(mem: seq<byte>, m: Meta): Option<byte>
    requires |mem| == FLASH_SIZE
  {
    if m.active <= 1 && SoundIn(mem, m, m.active) then Some(m.active)
    else if m.confirmed <= 1 && SoundIn(mem, m, m.confirmed) then Some(m.confirmed)
    else None
  }

  lemma FallbackMeans(mem: seq<byte>, m: Meta)
    requires |mem| == FLASH_SIZE
    ensures Fallback(mem, m) == Trusted(mem, m)
  {
    hide ImageOk, SoundIn;
    CheckMeans(mem, m, m.active);
    CheckMeans(mem, m, m.confirmed);
  }

  lemma TrialMeans(mem: seq<byte>, m: Meta)
    requires |mem| == FLASH_SIZE
    ensures Trial(mem, m) <==> Tries(mem, m)
  {
    hide ImageOk, SoundIn;
    CheckMeans(mem, m, m.pending);
  }

  lemma SoundDepends(mem: seq<byte>, mem': seq<byte>, m: Meta, m': Meta, slot: byte)
    requires |mem| == FLASH_SIZE && |mem'| == FLASH_SIZE && SlotsSame(mem, mem')
    requires SamePayload(m, m', SLOT_A) && SamePayload(m, m', SLOT_B)
    ensures SoundIn(mem, m, slot) <==> SoundIn(mem', m', slot)
  {
    hide ImageOk, SoundIn;
    CheckMeans(mem, m, slot);
    CheckMeans(mem', m', slot);
    SlotsSameBytes(mem, mem', slot);
    ImageOkDepends(mem, mem', m, m', slot);
  }

  lemma TrustedDepends(mem: seq<byte>, mem': seq<byte>, m: Meta, m': Meta)
    requires |mem| == FLASH_SIZE && |mem'| == FLASH_SIZE && SlotsSame(mem, mem')
    requires SamePayload(m, m', SLOT_A) && SamePayload(m, m', SLOT_B)
    requires m.active == m'.active && m.confirmed == m'.confirmed
    ensures Trusted(mem, m) == Trusted(mem', m')
  {
    hide SoundIn;
    SoundDepends(mem, mem', m, m', m.active);
    SoundDepends(mem, mem', m, m', m.confirmed);
  }

  lemma RolledBackMeans(m: Meta)
    requires m.pending <= 1
    ensures RolledBack(m) == GivenUp(m)
    ensures SamePayload(m, GivenUp(m), SLOT_A) && SamePayload(m, GivenUp(m), SLOT_B)
  {
  }

  /**
   * Every boot decision, for any flash and any metadata: the pending slot is tried exactly when it is sound and has
   * attempts left, and given up otherwise; without a trial the boot ends where the trusted slots allow.
   */
  lemma DecisionExact(mem: seq<byte>, m: Meta, ops: nat)
    requires |mem| == FLASH_SIZE
    ensures var d := Decide(mem, m, ops);
            && SlotsSame(mem, d.mem)
            && d.meta == (if m.pending > 1 then m
                          else if Tries(mem, m) then m.(attempts := m.attempts + 1) else GivenUp(m))
            && d.jump == (if Tries(mem, m) then Some(m.pending) else Trusted(mem, m))
            && (m.pending > 1 ==> d.mem == mem)
  {
    hide ImageOk, SoundIn, Trusted, Fallback, RolledBack, GivenUp, Store;
    TrialMeans(mem, m);
    if m.pending > 1 {
      FallbackMeans(mem, m);
    } else {
      RolledBackMeans(m);
      var mem' := Store(mem, Decided(mem, m), true, ops).0;
      StoreEffect(mem, Decided(mem, m), true, ops);
      FallbackMeans(mem', RolledBack(m));
      TrustedKept(mem, mem', m);
    }
  }

  lemma TrustedKept(mem: seq<byte>, mem': seq<byte>, m: Meta)
    requires |mem| == FLASH_SIZE && |mem'| == FLASH_SIZE && SlotsSame(mem, mem') && m.pending <= 1
    ensures Trusted(mem', GivenUp(m)) == Trusted(mem, m)
  {
    RolledBackMeans(m);
    TrustedDepends(mem, mem', m, GivenUp(m));
  }

  /** Every slot a boot jumps to is sound. */
  lemma JumpsSound(mem: seq<byte>, m: Meta, ops: nat)
    requires |mem| == FLASH_SIZE && Decide(mem, m, ops).jump.Some?
    ensures var d := Decide(mem, m, ops); SoundIn(d.mem, m, d.jump.value)
  {
    hide SoundIn, Decide;
    DecisionExact(mem, m, ops);
    SoundDepends(mem, Decide(mem, m, ops).mem, m, m, Decide(mem, m, ops).jump.value);
  }

  /** An application that a decision starts has its reset vector and stack pointer in range and its checksum right. */
  lemma StartsSound(st: State, leave: Event)
    requires StateOk(st) && st.phase.Loader? && !st.phase.stuck && leave.kind.Leave?
    requires Next(st, leave).phase.Running?
    ensures SoundIn(Next(st, leave).mem, st.phase.meta, Next(st, leave).phase.slot)
  {
    hide SoundIn, Decide;
    JumpsSound(st.mem, st.phase.meta, leave.ops);
  }

  /**
   * A pending image of the recorded size and checksum, with a low stack pointer and attempts left, is booted exactly
   * when its reset vector lies in flash; otherwise it is given up.
   */
  lemma ResetVectorDecides(mem: seq<byte>, m: Meta, ops: nat)
    requires |mem| == FLASH_SIZE && m.pending <= 1 && m.attempts < 3
    requires var bytes := SlotBytes(mem, m.pending);
             && 0 < ImageOf(m, m.pending).size <= SLOT_SIZE
             && Crc32(bytes[..ImageOf(m, m.pending).size]) == ImageOf(m, m.pending).crc
             && 0x2000_0000 <= ReadU32(bytes, 0) < 0x2002_0000
    ensures var d, vector := Decide(mem, m, ops), ReadU32(SlotBytes(mem, m.pending), 4);
            && (d.jump == Some(m.pending) <==> 0x0800_0000 <= vector <= 0x080F_FFFF)
            && d.meta == (if 0x0800_0000 <= vector <= 0x080F_FFFF then m.(attempts := m.attempts + 1) else GivenUp(m))
  {
    VectorTips(mem, m, m.pending);
    hide SlotBytes, SoundIn, Decide, Crc32, GivenUp, ReadU32;
    DecisionExact(mem, m, ops);
  }

  lemma VectorTips(mem: seq<byte>, m: Meta, slot: byte)
    requires |mem| == FLASH_SIZE && slot <= 1
    requires var bytes, size := SlotBytes(mem, slot), ImageOf(m, slot).size;
             && 0 < size <= SLOT_SIZE && Crc32(bytes[..size]) == ImageOf(m, slot).crc
             && 0x2000_0000 <= ReadU32(bytes, 0) < 0x2002_0000
    ensures SoundIn(mem, m, slot) <==> 0x0800_0000 <= ReadU32(SlotBytes(mem, slot), 4) <= 0x080F_FFFF
  {
    hide Crc32, ReadU32;
  }
}
