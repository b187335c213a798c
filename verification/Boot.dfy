/** Power-up, the boot decision, and the application's confirmation of the slot it runs from. */
module Boot {
  import opened Bytes
  import opened Crc
  import opened Flash
  import opened MetaRecord
  import opened MetaLog
  import opened MetaStore
  import opened Session

  const MAX_BOOT_ATTEMPTS: nat := 3
  const SP_MASK: u32 := 0x2FFE_0000

  /** The boot decision's own view of a plausible vector table. */
  predicate BootVectorOk(mem: seq<byte>, base: u32)
    requires |mem| == FLASH_SIZE && IsSlotBase(base)
  {
    var sp, pc := ReadU32(mem, Index(base)), ReadU32(mem, Index(base) + 4);
    And(sp, SP_MASK) == 0x2000_0000 && FLASH_BASE <= pc < FLASH_BASE + 0x10_0000
  }

  /** Size, vector table and CRC-32 of the slot agree with the metadata. */
  predicate ImageOk(mem: seq<byte>, m: Meta, slot: byte)
    requires |mem| == FLASH_SIZE
  {
    var image := ImageOf(m, slot);
    && 0 < image.size <= SLOT_SIZE
    && BootVectorOk(mem, SlotBase(slot))
    && Crc32(mem[SlotAt(slot)..SlotAt(slot) + image.size]) == image.crc
  }

  datatype Started = Started(mem: seq<byte>, meta: Meta)

  /** The newest metadata, or the factory default written back to heal the sector. */
  function PowerUp(mem: seq<byte>, ops: nat): (r: Started)
    requires |mem| == FLASH_SIZE
    ensures |r.mem| == FLASH_SIZE
  {
    var stored := Stored(LogOf(mem));
    if stored.Some? then Started(mem, stored.value)
    else Started(Store(mem, DefaultMeta(), true, ops).0, DefaultMeta())
  }

  /** Where a boot ends: jumping to a slot, or staying in the loader when `jump` is None. */
  datatype Decision = Decision(mem: seq<byte>, meta: Meta, jump: Option<byte>)

  predicate IsSlot(b: byte) {
    b == SLOT_A || b == SLOT_B
  }

  function RolledBack(m: Meta): Meta {
    WithState(m, m.pending, IMG_ROLLBACK)
      .(pending := SLOT_NONE, rollbacks := (m.rollbacks + 1) % 0x1_0000_0000, attempts := 0)
  }

  /** The slot the loader falls back to once nothing is pending. */
  function Fallback(mem: seq<byte>, m: Meta): Option<byte>
    requires |mem| == FLASH_SIZE
  {
    if IsSlot(m.active) && ImageOk(mem, m, m.active) then Some(m.active)
    else if IsSlot(m.confirmed) && ImageOk(mem, m, m.confirmed) then Some(m.confirmed)
    else None
  }

  /** The pending slot gets another trial: its image checks out and it has attempts left. */
  predicate Trial(mem: seq<byte>, m: Meta)
    requires |mem| == FLASH_SIZE
  {
    IsSlot(m.pending) && ImageOk(mem, m, m.pending) && m.attempts < MAX_BOOT_ATTEMPTS
  }

  function Tried(m: Meta): Meta
    requires m.attempts < MAX_BOOT_ATTEMPTS
  {
    m.(attempts := m.attempts + 1)
  }

  /** The metadata the decision goes on with, and commits when a slot was pending. */
  function Decided(mem: seq<byte>, m: Meta): Meta
    requires |mem| == FLASH_SIZE
  {
    if !IsSlot(m.pending) then m
    else if Trial(mem, m) then Tried(m)
    else RolledBack(m)
  }

  function Decide(mem: seq<byte>, m: Meta, ops: nat): (r: Decision)
    requires |mem| == FLASH_SIZE
    ensures |r.mem| == FLASH_SIZE && r.meta == Decided(mem, m)
  {
    if !IsSlot(m.pending) then Decision(mem, m, Fallback(mem, m))
    else
      var mem' := Store(mem, Decided(mem, m), true, ops).0;
      Decision(mem', Decided(mem, m), if Trial(mem, m) then Some(m.pending) else Fallback(mem', RolledBack(m)))
  }

  // ---- The application's side ----

  predicate Confirmable(m: Meta, slot: byte) {
    m.pending == slot && ImageOf(m, slot).state == IMG_PENDING
  }

  /** The metadata of a slot that has proved itself: active, confirmed, and the new version floor. */
  function ConfirmedMeta(m: Meta, slot: byte): Meta {
    var image := ImageOf(m, slot);
    WithState(m, slot, IMG_CONFIRMED)
      .(active := slot, confirmed := slot, pending := SLOT_NONE, attempts := 0, seqNo := Next16(m.seqNo),
        minVersion := if image.version > m.minVersion then image.version else m.minVersion)
  }

  /** The running application confirms its slot, or leaves flash alone when it is not the pending one. */
  function Confirm(mem: seq<byte>, slot: byte, ops: nat): (r: seq<byte>)
    requires |mem| == FLASH_SIZE
    ensures |r| == FLASH_SIZE
  {
    var stored := Stored(LogOf(mem));
    if stored.None? || !Confirmable(stored.value, slot) then mem
    else Store(mem, ConfirmedMeta(stored.value, slot), false, ops).0
  }
}
