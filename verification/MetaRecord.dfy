/** The 60-byte OTA metadata record: its layout, its checksum and the states it can be in. */
module MetaRecord {
  import opened Bytes
  import opened Crc

  const META_MAGIC: u32 := 0x454F_5441
  const META_SCHEMA: u16 := 2
  const RECORD_SIZE: nat := 60

  const SLOT_A: byte := 0
  const SLOT_B: byte := 1
  const SLOT_NONE: byte := 0xFF

  const IMG_INVALID: u32 := 0
  const IMG_VALID: u32 := 1
  const IMG_PENDING: u32 := 2
  const IMG_CONFIRMED: u32 := 3
  const IMG_ROLLBACK: u32 := 4

  datatype Image = Image(version: u32, size: u32, crc: u32, state: u32)

  datatype Meta = Meta(
    magic: u32, schema: u16, seqNo: u16,
    active: byte, pending: byte, confirmed: byte, attempts: byte,
    imageA: Image, imageB: Image,
    rollbacks: u32, minVersion: u32, lastError: u32, crc: u32)

  /** The struct as fifteen little-endian words. */
  function Fields(m: Meta): (ws: seq<u32>)
    ensures |ws| == 15
  {
    [m.magic, Halves(m.schema, m.seqNo), Join((m.active, m.pending, m.confirmed, m.attempts)),
     m.imageA.version, m.imageA.size, m.imageA.crc, m.imageA.state,
     m.imageB.version, m.imageB.size, m.imageB.crc, m.imageB.state,
     m.rollbacks, m.minVersion, m.lastError, m.crc]
  }

  function Encode(m: Meta): (s: seq<byte>)
    ensures |s| == RECORD_SIZE
  {
    Words(Fields(m))
  }

  function FromFields(ws: seq<u32>): Meta
    requires |ws| == 15
  {
    var q := Split(ws[2]);
    Meta(ws[0], Low(ws[1]), High(ws[1]), q.0, q.1, q.2, q.3,
         Image(ws[3], ws[4], ws[5], ws[6]), Image(ws[7], ws[8], ws[9], ws[10]),
         ws[11], ws[12], ws[13], ws[14])
  }

  lemma FieldsRoundTrip(m: Meta)
    ensures FromFields(Fields(m)) == m
  {
    hide Split, Join, Halves, Low, High;
    HalvesRoundTrip(m.schema, m.seqNo, 0);
    SplitJoin((m.active, m.pending, m.confirmed, m.attempts));
  }

  lemma FieldsInverse(ws: seq<u32>)
    requires |ws| == 15
    ensures Fields(FromFields(ws)) == ws
  {
    HalvesRoundTrip(0, 0, ws[1]);
    JoinSplit(ws[2]);
  }

  function Decode(s: seq<byte>): Meta
    requires |s| == RECORD_SIZE
  {
    FromFields(ReadWords(s, 15))
  }

  lemma DecodeEncode(m: Meta)
    ensures Decode(Encode(m)) == m
  {
    ReadWordsOfWords(Fields(m));
    FieldsRoundTrip(m);
  }

  lemma EncodeDecode(s: seq<byte>)
    requires |s| == RECORD_SIZE
    ensures Encode(Decode(s)) == s
  {
    WordsOfReadWords(s, 15);
    FieldsInverse(ReadWords(s, 15));
  }

  /** Where each field lies in the sixty bytes. */
  lemma FieldOffsets(m: Meta)
    ensures var e := Encode(m);
            && ReadU32(e, 0) == m.magic && ReadU16(e, 4) == m.schema && ReadU16(e, 6) == m.seqNo
            && e[8] == m.active && e[9] == m.pending && e[10] == m.confirmed && e[11] == m.attempts
            && Image(ReadU32(e, 12), ReadU32(e, 16), ReadU32(e, 20), ReadU32(e, 24)) == m.imageA
            && Image(ReadU32(e, 28), ReadU32(e, 32), ReadU32(e, 36), ReadU32(e, 40)) == m.imageB
            && ReadU32(e, 44) == m.rollbacks && ReadU32(e, 48) == m.minVersion && ReadU32(e, 52) == m.lastError
            && ReadU32(e, 56) == m.crc
  {
    var ws, e := Fields(m), Encode(m);
    hide Words, ReadU32, ReadU16, Join, Halves;
    WordsRead(ws, 0);
    WordsRead(ws, 1);
    WordsRead(ws, 2);
    WordsRead(ws, 3);
    WordsRead(ws, 4);
    WordsRead(ws, 5);
    WordsRead(ws, 6);
    WordsRead(ws, 7);
    WordsRead(ws, 8);
    WordsRead(ws, 9);
    WordsRead(ws, 10);
    WordsRead(ws, 11);
    WordsRead(ws, 12);
    WordsRead(ws, 13);
    WordsRead(ws, 14);
    HalvesAt(e, 4, m.schema, m.seqNo);
    BytesAt(e, 8, (m.active, m.pending, m.confirmed, m.attempts));
  }

  // ---- Checksum ----

  /** The checksum of the record with its own checksum field read as zero. */
  function Checksum(m: Meta): u32 {
    Crc32(Encode(m.(crc := 0)))
  }

  predicate Valid(m: Meta) {
    m.magic == META_MAGIC && m.schema == META_SCHEMA && m.crc == Checksum(m)
  }

  function Seal(m: Meta): Meta {
    m.(crc := Checksum(m))
  }

  predicate RecordValid(s: seq<byte>)
    requires |s| == RECORD_SIZE
  {
    Valid(Decode(s))
  }

  lemma SealedIsValid(m: Meta)
    requires m.magic == META_MAGIC && m.schema == META_SCHEMA
    ensures RecordValid(Encode(Seal(m))) && Decode(Encode(Seal(m))) == Seal(m)
  {
    DecodeEncode(Seal(m));
    assert Seal(m).(crc := 0) == m.(crc := 0);
  }

  /** The body under the checksum is the record's first 56 bytes followed by four zeros. */
  lemma ChecksumInput(s: seq<byte>)
    requires |s| == RECORD_SIZE
    ensures Encode(Decode(s).(crc := 0)) == s[..56] + [0, 0, 0, 0]
  {
    EncodeDecode(s);
    var m := Decode(s);
    var ws, zs := Fields(m), Fields(m.(crc := 0));
    assert ws == ws[..14] + [m.crc] && zs == ws[..14] + [0];
    WordsSplit(ws[..14], [m.crc]);
    WordsSplit(ws[..14], [0]);
    assert Words([0]) == Word(0) + [] == [0, 0, 0, 0];
    assert Words(ws)[..56] == Words(ws[..14]);
  }

  lemma StoredCrc(s: seq<byte>)
    requires |s| == RECORD_SIZE
    ensures Decode(s).crc == ReadU32(s, 56)
    ensures Checksum(Decode(s)) == Crc32(s[..56] + [0, 0, 0, 0])
  {
    ChecksumInput(s);
  }

  /** Any change confined to one byte of a valid record is rejected by the validator. */
  lemma OneByteChangeRejected(s: seq<byte>, t: seq<byte>, i: nat)
    requires |s| == RECORD_SIZE && RecordValid(s) && OneByteApart(s, t, i)
    ensures !RecordValid(t)
  {
    StoredCrc(s);
    StoredCrc(t);
    if i < 56 {
      var a, b := s[..56] + [0, 0, 0, 0], t[..56] + [0, 0, 0, 0];
      assert OneByteApart(a, b, i);
      Crc32DetectsByte(a, b, i);
    } else {
      assert s[..56] == t[..56];
      DifferentWords(s, t, 56, i);
    }
  }

  lemma DifferentWords(s: seq<byte>, t: seq<byte>, at: nat, i: nat)
    requires |s| == |t| && at <= i < at + 4 <= |s| && s[i] != t[i]
    ensures ReadU32(s, at) != ReadU32(t, at)
  {
    if ReadU32(s, at) == ReadU32(t, at) {
      ReadInjective(s, t, at);
    }
  }

  // ---- The validator and the sealing loop, as the boot loader runs them ----

  method Validate(record: seq<byte>) returns (ok: bool)
    requires |record| == RECORD_SIZE
    ensures ok == RecordValid(record)
  {
    var m := Decode(record);
    if m.magic != META_MAGIC { return false; }
    if m.schema != META_SCHEMA { return false; }
    var tmp := m.(crc := 0);
    var crc := ComputeCrc32(Encode(tmp));
    ok := crc == m.crc;
  }

  method UpdateCrc(m: Meta) returns (r: Meta)
    ensures r == Seal(m)
  {
    r := m.(crc := 0);
    var crc := ComputeCrc32(Encode(r));
    r := r.(crc := crc);
  }

  function DefaultMeta(): Meta {
    Seal(Meta(META_MAGIC, META_SCHEMA, 1, SLOT_A, SLOT_NONE, SLOT_A, 0,
              Image(0, 0, 0, IMG_VALID), Image(0, 0, 0, IMG_INVALID), 0, 1, 0, 0))
  }

  // ---- Accessors: every slot number other than B selects A ----

  function ImageOf(m: Meta, slot: byte): Image {
    if slot == SLOT_B then m.imageB else m.imageA
  }

  function WithImage(m: Meta, slot: byte, i: Image): Meta {
    if slot == SLOT_B then m.(imageB := i) else m.(imageA := i)
  }

  function WithState(m: Meta, slot: byte, state: u32): Meta {
    WithImage(m, slot, ImageOf(m, slot).(state := state))
  }

  function MinAllowed(m: Meta): u32 {
    if m.minVersion == 0 then 1 else m.minVersion
  }

  function Other(slot: byte): byte {
    if slot == SLOT_A then SLOT_B else SLOT_A
  }
}
