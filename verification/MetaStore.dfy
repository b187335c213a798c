/** The loops that scan and program the metadata sector, in the boot loader and again in the application. */
module MetaStore {
  import opened Bytes
  import opened Crc
  import opened Flash
  import opened MetaRecord
  import opened MetaLog

  const SECTOR_AT: nat := 0x1_0000

  function SectorOf(mem: seq<byte>): (s: seq<byte>)
    requires |mem| == FLASH_SIZE
    ensures IsSector(s)
  {
    mem[SECTOR_AT..SECTOR_AT + META_SIZE]
  }

  function WithSector(mem: seq<byte>, s: seq<byte>): (r: seq<byte>)
    requires |mem| == FLASH_SIZE && IsSector(s)
    ensures |r| == FLASH_SIZE
  {
    Splice(mem, SECTOR_AT, s)
  }

  /** The log a flash image holds. */
  function LogOf(mem: seq<byte>): (es: Log)
    requires |mem| == FLASH_SIZE
    ensures |es| == RECORDS
  {
    Entries(SectorOf(mem))
  }

  /** es is the log in mem; the trigger keeps records unread until they are fetched. */
  ghost predicate Holds(mem: seq<byte>, es: Log) {
    && |mem| == FLASH_SIZE && |es| == RECORDS
    && forall i {:trigger Record(SectorOf(mem), i)} | 0 <= i < RECORDS :: es[i] == Classify(Record(SectorOf(mem), i))
  }

  lemma LogHeld(mem: seq<byte>)
    requires |mem| == FLASH_SIZE
    ensures Holds(mem, LogOf(mem))
  {
  }

  lemma StoredIsValid(mem: seq<byte>)
    requires |mem| == FLASH_SIZE && Stored(LogOf(mem)).Some?
    ensures Valid(Stored(LogOf(mem)).value)
  {
    var i := Latest(LogOf(mem)).value;
    assert LogOf(mem)[i] == Classify(Record(SectorOf(mem), i));
  }

  function RecordAddress(i: nat): u32
    requires i < RECORDS
  {
    META_BASE + RECORD_SIZE * i
  }

  lemma RecordInMem(mem: seq<byte>, i: nat)
    requires |mem| == FLASH_SIZE && i < RECORDS
    ensures Record(SectorOf(mem), i) == mem[SECTOR_AT + RECORD_SIZE * i..SECTOR_AT + RECORD_SIZE * i + RECORD_SIZE]
  {
    var r, t := Record(SectorOf(mem), i), mem[SECTOR_AT + RECORD_SIZE * i..SECTOR_AT + RECORD_SIZE * i + RECORD_SIZE];
    forall j | 0 <= j < RECORD_SIZE ensures r[j] == t[j] {
      RecordByte(SectorOf(mem), i, j);
    }
  }

  lemma ProgramInSector(mem: seq<byte>, at: nat, d: seq<byte>, n: nat)
    requires |mem| == FLASH_SIZE && n <= |d| && at + |d| <= META_SIZE
    ensures Programmed(mem, SECTOR_AT + at, d, n) == WithSector(mem, Programmed(SectorOf(mem), at, d, n))
  {
    var p, q := Programmed(mem, SECTOR_AT + at, d, n), WithSector(mem, Programmed(SectorOf(mem), at, d, n));
    forall j | 0 <= j < FLASH_SIZE ensures p[j] == q[j] {
      SpliceAt(mem, SECTOR_AT, Programmed(SectorOf(mem), at, d, n), j);
    }
  }

  lemma WipeSector(mem: seq<byte>)
    requires |mem| == FLASH_SIZE
    ensures Wiped(mem, SECTOR_AT, META_SIZE) == WithSector(mem, Blank(META_SIZE))
  {
    var p, q := Wiped(mem, SECTOR_AT, META_SIZE), WithSector(mem, Blank(META_SIZE));
    forall j | 0 <= j < FLASH_SIZE ensures p[j] == q[j] {
      SpliceAt(mem, SECTOR_AT, Blank(META_SIZE), j);
    }
  }

  lemma SectorRoundTrip(mem: seq<byte>, s: seq<byte>, t: seq<byte>)
    requires |mem| == FLASH_SIZE && IsSector(s) && IsSector(t)
    ensures SectorOf(WithSector(mem, s)) == s
    ensures WithSector(WithSector(mem, s), t) == WithSector(mem, t)
    ensures WithSector(mem, SectorOf(mem)) == mem
  {
  }

  // ---- Scanning ----

  method ReadRecord(chip: Chip, i: nat) returns (r: seq<byte>)
    requires chip.Valid() && i < RECORDS
    ensures r == Record(SectorOf(chip.mem[..]), i)
  {
    RecordInMem(chip.mem[..], i);
    r := chip.mem[SECTOR_AT + RECORD_SIZE * i..SECTOR_AT + RECORD_SIZE * i + RECORD_SIZE];
  }

  method SlotIsErased(chip: Chip, i: nat, ghost es: Log) returns (erased: bool)
    requires chip.Valid() && i < RECORDS && Holds(chip.mem[..], es)
    ensures erased == es[i].Free?
  {
    var p := ReadRecord(chip, i);
    for k := 0 to RECORD_SIZE
      invariant forall j | 0 <= j < k :: p[j] == ERASED
    {
      if p[k] != ERASED {
        return false;
      }
    }
    erased := true;
  }

  /** The record in slot i, if the boot loader's validator accepts it. */
  method ValidRecord(chip: Chip, i: nat, ghost es: Log) returns (m: Option<Meta>)
    requires chip.Valid() && i < RECORDS && Holds(chip.mem[..], es) && !es[i].Free?
    ensures m == if es[i].Good? then Some(es[i].meta) else None
  {
    var r := ReadRecord(chip, i);
    var valid := Validate(r);
    m := if valid then Some(Decode(r)) else None;
  }

  /** The record in slot i, if it passes the application's own sequence of checks. */
  method OtaValidRecord(chip: Chip, i: nat, ghost es: Log) returns (m: Option<Meta>)
    requires chip.Valid() && i < RECORDS && Holds(chip.mem[..], es) && !es[i].Free?
    ensures m == if es[i].Good? then Some(es[i].meta) else None
  {
    var r := ReadRecord(chip, i);
    var tmp := Decode(r);
    if tmp.magic != META_MAGIC || tmp.schema != META_SCHEMA {
      return None;
    }
    var crc := tmp.crc;
    tmp := tmp.(crc := 0);
    var computed := ComputeCrc32(Encode(tmp));
    if computed != crc {
      return None;
    }
    m := Some(tmp.(crc := crc));
  }

  function MetaOf(es: Log, i: Option<nat>): Option<Meta>
    requires i.Some? ==> i.value < |es| && es[i.value].Good?
  {
    if i.Some? then Some(es[i.value].meta) else None
  }

  /** The boot loader's scan for the newest record. */
  method FindLatest(chip: Chip, ghost es: Log) returns (latest: Option<Meta>)
    requires chip.Valid() && Holds(chip.mem[..], es)
    ensures latest == Stored(es)
  {
    latest := None;
    var i := 0;
    while i < RECORDS
      invariant i <= RECORDS && Used(es) == FirstFree(es, i)
      invariant latest == MetaOf(es, Best(es, i))
    {
      var erased := SlotIsErased(chip, i, es);
      if erased {
        break;
      }
      var rec := ValidRecord(chip, i, es);
      if rec.Some? && (latest.None? || Newer(rec.value.seqNo, latest.value.seqNo)) {
        latest := rec;
      }
      i := i + 1;
    }
  }

  /** The application's scan finds what the boot loader's does. */
  method OtaMetaLoad(chip: Chip, ghost es: Log) returns (best: Option<Meta>)
    requires chip.Valid() && Holds(chip.mem[..], es)
    ensures best == Stored(es)
  {
    best := None;
    var i := 0;
    while i < RECORDS
      invariant i <= RECORDS && Used(es) == FirstFree(es, i)
      invariant best == MetaOf(es, Best(es, i))
    {
      var erased := SlotIsErased(chip, i, es);
      if erased {
        break;
      }
      var tmp := OtaValidRecord(chip, i, es);
      if tmp.Some? {
        if best.None? || Newer(tmp.value.seqNo, best.value.seqNo) {
          best := tmp;
        }
      }
      i := i + 1;
    }
  }

  method FindAppendSlot(chip: Chip, ghost es: Log) returns (slot: Option<nat>)
    requires chip.Valid() && Holds(chip.mem[..], es)
    ensures slot == if Used(es) < RECORDS then Some(Used(es)) else None
  {
    for i := 0 to RECORDS
      invariant Used(es) == FirstFree(es, i)
    {
      var erased := SlotIsErased(chip, i, es);
      if erased {
        return Some(i);
      }
    }
    slot := None;
  }

  // ---- Writing ----

  lemma BlankCopies(mem: seq<byte>, i: nat, w: Meta)
    requires |mem| == FLASH_SIZE && i < RECORDS && Record(SectorOf(mem), i) == Blank(RECORD_SIZE)
    ensures Copies(mem, SECTOR_AT + RECORD_SIZE * i, Encode(w))
  {
    forall j | 0 <= j < RECORD_SIZE
      ensures And(mem[SECTOR_AT + RECORD_SIZE * i + j], Encode(w)[j]) == Encode(w)[j]
    {
      RecordByte(SectorOf(mem), i, j);
      AndErased(Encode(w)[j]);
    }
  }

  /** Validates the record in slot i in place. */
  method ValidateInPlace(chip: Chip, i: nat, ghost w: Meta) returns (ok: bool)
    requires chip.Valid() && i < RECORDS && Valid(w)
    requires chip.mem[SECTOR_AT + RECORD_SIZE * i..SECTOR_AT + RECORD_SIZE * i + RECORD_SIZE] == Encode(w)
    ensures ok
  {
    DecodeEncode(w);
    ok := Validate(chip.mem[SECTOR_AT + RECORD_SIZE * i..SECTOR_AT + RECORD_SIZE * i + RECORD_SIZE]);
  }

  /** Sixty byte programs, a read-back and, in the boot loader, a validation; n bytes were programmed. */
  method ProgramRecord(chip: Chip, i: nat, w: Meta, validate: bool) returns (ok: bool, ghost n: nat)
    requires chip.Valid() && i < RECORDS && Record(SectorOf(chip.mem[..]), i) == Blank(RECORD_SIZE)
    requires validate ==> Valid(w)
    modifies chip.mem
    ensures n <= RECORD_SIZE && ok == (n == RECORD_SIZE)
    ensures chip.mem[..] ==
            WithSector(old(chip.mem[..]), Programmed(SectorOf(old(chip.mem[..])), RECORD_SIZE * i, Encode(w), n))
  {
    ghost var was, at := chip.mem[..], SECTOR_AT + RECORD_SIZE * i;
    var src := Encode(w);
    BlankCopies(was, i, w);
    n := 0;
    var k := 0;
    while k < RECORD_SIZE
      invariant n == k <= RECORD_SIZE
      invariant chip.mem[..] == Programmed(was, at, src, k)
    {
      var done := chip.ProgramNextByte(RecordAddress(i), src, k, was);
      if !done {
        ProgramInSector(was, RECORD_SIZE * i, src, k);
        return false, k;
      }
      k, n := k + 1, n + 1;
    }
    ProgramInSector(was, RECORD_SIZE * i, src, n);
    ok := chip.ReadBack(RecordAddress(i), src);
    ProgrammedRange(was, at, src);
    if validate {
      ok := ValidateInPlace(chip, i, w);
    }
  }

  method EraseMeta(chip: Chip) returns (ok: bool)
    requires chip.Valid()
    modifies chip.mem
    ensures chip.mem[..] == if ok then WithSector(old(chip.mem[..]), Blank(META_SIZE)) else old(chip.mem[..])
  {
    ghost var done;
    ok, done := chip.EraseSectors(SECTOR_AT, META_SIZE, 1);
    WipeSector(old(chip.mem[..]));
    assert Wiped(old(chip.mem[..]), SECTOR_AT, 0) == old(chip.mem[..]);
  }

  /** The boot loader's commit, during which `ops` flash operations succeeded. */
  method CommitMeta(chip: Chip, meta: Meta) returns (ok: bool, ghost ops: nat)
    requires chip.Valid() && meta.magic == META_MAGIC && meta.schema == META_SCHEMA
    modifies chip.mem
    ensures chip.mem[..] ==
            WithSector(old(chip.mem[..]), Committed(SectorOf(old(chip.mem[..])), ToStore(meta, true), ops))
    ensures ok == (ops >= CommitOps(LogOf(old(chip.mem[..]))))
  {
    var work := meta;
    if work.seqNo == 0 {
      work := work.(seqNo := 1);
    }
    work := UpdateCrc(work);
    SealedIsValid(if meta.seqNo == 0 then meta.(seqNo := 1) else meta);
    ok, ops := StoreRecord(chip, work, true);
  }

  /** The application's commit. */
  method OtaMetaCommit(chip: Chip, meta: Meta) returns (ok: bool, ghost ops: nat)
    requires chip.Valid()
    modifies chip.mem
    ensures chip.mem[..] ==
            WithSector(old(chip.mem[..]), Committed(SectorOf(old(chip.mem[..])), ToStore(meta, false), ops))
    ensures ok == (ops >= CommitOps(LogOf(old(chip.mem[..]))))
  {
    var work := UpdateCrc(meta);
    ok, ops := StoreRecord(chip, work, false);
  }

  /** Append to the first free slot, or erase the full sector and start over. */
  method StoreRecord(chip: Chip, work: Meta, validate: bool) returns (ok: bool, ghost ops: nat)
    requires chip.Valid() && (validate ==> Valid(work))
    modifies chip.mem
    ensures chip.mem[..] ==
            WithSector(old(chip.mem[..]), Committed(SectorOf(old(chip.mem[..])), work, ops))
    ensures ok == (ops >= CommitOps(LogOf(old(chip.mem[..]))))
  {
    ghost var was := chip.mem[..];
    LogHeld(was);
    var slot := FindAppendSlot(chip, LogOf(was));
    if slot.Some? {
      FreeIsBlank(SectorOf(was), slot.value);
      ok, ops := ProgramRecord(chip, slot.value, work, validate);
      return;
    }
    SectorRoundTrip(was, Blank(META_SIZE), Blank(META_SIZE));
    var erased := EraseMeta(chip);
    if !erased {
      return false, 0;
    }
    BlankSector();
    FreeIsBlank(Blank(META_SIZE), 0);
    ghost var n;
    ok, n := ProgramRecord(chip, 0, work, validate);
    ops := 1 + n;
    SectorRoundTrip(was, Blank(META_SIZE), Programmed(Blank(META_SIZE), 0, Encode(work), n));
  }

  lemma FreeIsBlank(s: seq<byte>, i: nat)
    requires IsSector(s) && i < RECORDS && Entries(s)[i].Free?
    ensures Record(s, i) == Blank(RECORD_SIZE)
  {
  }
}
