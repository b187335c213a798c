/** The append-only metadata log: 1092 record slots in one 64 KB sector, newest record by serial number. */
module MetaLog {
  import opened Bytes
  import opened Crc
  import opened Flash
  import opened MetaRecord

  const RECORDS: nat := 1092

  /** How a scan sees one record slot. */
  datatype Entry = Free | Junk | Good(meta: Meta)

  type Log = seq<Entry>

  function Classify(r: seq<byte>): (e: Entry)
    requires |r| == RECORD_SIZE
    ensures e.Free? <==> forall i | 0 <= i < RECORD_SIZE :: r[i] == ERASED
    ensures e.Good? ==> Valid(e.meta) && e.meta == Decode(r)
  {
    if r == Blank(RECORD_SIZE) then Free
    else if RecordValid(r) then Good(Decode(r))
    else Junk
  }

  predicate IsSector(s: seq<byte>) {
    |s| == META_SIZE
  }

  function Record(s: seq<byte>, i: nat): (r: seq<byte>)
    requires IsSector(s) && i < RECORDS
    ensures |r| == RECORD_SIZE
  {
    s[RECORD_SIZE * i..RECORD_SIZE * (i + 1)]
  }

  function Entries(s: seq<byte>): (es: Log)
    requires IsSector(s)
    ensures |es| == RECORDS
  {
    seq(RECORDS, i requires 0 <= i < RECORDS => Classify(Record(s, i)))
  }

  // ---- Scanning ----

  /** The first free slot from slot i on, or the number of slots. */
  function FirstFree(es: Log, i: nat): (r: nat)
    requires i <= |es|
    ensures i <= r <= |es|
    ensures forall j | i <= j < r :: !es[j].Free?
    ensures r < |es| ==> es[r].Free?
    decreases |es| - i
  {
    if i == |es| || es[i].Free? then i else FirstFree(es, i + 1)
  }

  function Used(es: Log): (n: nat)
    ensures n <= |es|
  {
    FirstFree(es, 0)
  }

  /** No record hides behind a free slot. */
  ghost predicate HoleFree(es: Log) {
    forall j | Used(es) <= j < |es| :: es[j].Free?
  }

  /** Serial number comparison over 16 bits, as in section 3.2 of RFC 1982. */
  predicate Newer(candidate: u16, current: u16) {
    var delta := (candidate - current) % 0x1_0000;
    delta != 0 && delta < 0x8000
  }

  /** Which of two scan results survives: the held one, unless the next is valid and newer. */
  function Pick(held: Option<nat>, es: Log, i: nat): Option<nat>
    requires i < |es| && (held.Some? ==> held.value < |es| && es[held.value].Good?)
  {
    if !es[i].Good? then held
    else if held.None? || Newer(es[i].meta.seqNo, es[held.value].meta.seqNo) then Some(i)
    else held
  }

  /** Index of the record the scan holds after looking at the first n slots. */
  function Best(es: Log, n: nat): (r: Option<nat>)
    requires n <= |es|
    ensures r.Some? ==> r.value < n && es[r.value].Good?
    ensures r.None? <==> forall i | 0 <= i < n :: !es[i].Good?
  {
    if n == 0 then None else Pick(Best(es, n - 1), es, n - 1)
  }

  function Latest(es: Log): (r: Option<nat>)
    ensures r.Some? ==> r.value < Used(es) && es[r.value].Good?
  {
    Best(es, Used(es))
  }

  /** What scanning the log yields; nothing when no record validates. */
  function Stored(es: Log): Option<Meta> {
    var l := Latest(es);
    if l.Some? then Some(es[l.value].meta) else None
  }

  function Load(es: Log): Meta {
    var m := Stored(es);
    if m.Some? then m.value else DefaultMeta()
  }

  // ---- Committing ----

  function Min(a: nat, b: nat): nat {
    if a < b then a else b
  }

  /** The boot loader never stores serial number 0; the application does. */
  function ToStore(m: Meta, inLoader: bool): Meta {
    Seal(if inLoader && m.seqNo == 0 then m.(seqNo := 1) else m)
  }

  /** A record of which only the first n bytes reached flash. */
  function Torn(w: Meta, n: nat): (r: seq<byte>)
    requires n <= RECORD_SIZE
    ensures |r| == RECORD_SIZE
  {
    Encode(w)[..n] + Blank(RECORD_SIZE - n)
  }

  function TornEntry(w: Meta, n: nat): Entry
    requires n <= RECORD_SIZE
  {
    Classify(Torn(w, n))
  }

  /** The sector after a commit of w during which `ops` flash operations succeed. */
  function Committed(s: seq<byte>, w: Meta, ops: nat): (t: seq<byte>)
    requires IsSector(s)
    ensures IsSector(t)
  {
    var u := Used(Entries(s));
    if u < RECORDS then Programmed(s, RECORD_SIZE * u, Encode(w), Min(ops, RECORD_SIZE))
    else if ops == 0 then s
    else Programmed(Blank(META_SIZE), 0, Encode(w), Min(ops - 1, RECORD_SIZE))
  }

  /** Flash operations a commit needs: sixty byte programs, and an erase first when no slot is free. */
  function CommitOps(es: Log): nat {
    if Used(es) < |es| then RECORD_SIZE else 1 + RECORD_SIZE
  }

  /** The same commit on the log. */
  function LogAfter(es: Log, w: Meta, ops: nat): (t: Log)
    requires |es| == RECORDS
    ensures |t| == RECORDS
  {
    var u := Used(es);
    if u < RECORDS then es[u := TornEntry(w, Min(ops, RECORD_SIZE))]
    else if ops == 0 then es
    else Fill(RECORDS, Free)[0 := TornEntry(w, Min(ops - 1, RECORD_SIZE))]
  }

  lemma RecordByte(s: seq<byte>, i: nat, j: nat)
    requires IsSector(s) && i < RECORDS && j < RECORD_SIZE
    ensures Record(s, i)[j] == s[RECORD_SIZE * i + j]
  {
  }

  /** Programming n bytes of w into a blank slot makes that slot the torn record and touches no other. */
  lemma AppendRecords(s: seq<byte>, u: nat, w: Meta, n: nat)
    requires IsSector(s) && u < RECORDS && Classify(Record(s, u)).Free? && n <= RECORD_SIZE
    ensures var t := Programmed(s, RECORD_SIZE * u, Encode(w), n);
            Record(t, u) == Torn(w, n) && forall i: nat | i < RECORDS && i != u :: Record(t, i) == Record(s, i)
  {
    var t := Programmed(s, RECORD_SIZE * u, Encode(w), n);
    forall j | 0 <= j < RECORD_SIZE ensures Record(t, u)[j] == Torn(w, n)[j] {
      RecordByte(s, u, j);
      RecordByte(t, u, j);
      AndErased(Encode(w)[j]);
    }
    forall i: nat | i < RECORDS && i != u ensures Record(t, i) == Record(s, i) {
      forall j | 0 <= j < RECORD_SIZE ensures Record(t, i)[j] == Record(s, i)[j] {
        RecordByte(s, i, j);
        RecordByte(t, i, j);
      }
    }
  }

  lemma BlankSector()
    ensures Entries(Blank(META_SIZE)) == Fill(RECORDS, Free)
  {
    forall i: nat | i < RECORDS ensures Classify(Record(Blank(META_SIZE), i)).Free? {
      forall j | 0 <= j < RECORD_SIZE ensures Record(Blank(META_SIZE), i)[j] == ERASED {
        RecordByte(Blank(META_SIZE), i, j);
      }
    }
  }

  /** The bytes refine the log: committing bytes and then scanning is scanning and then committing. */
  lemma CommitRefines(s: seq<byte>, w: Meta, ops: nat)
    requires IsSector(s)
    ensures Entries(Committed(s, w, ops)) == LogAfter(Entries(s), w, ops)
  {
    var u := Used(Entries(s));
    if u < RECORDS {
      AppendRecords(s, u, w, Min(ops, RECORD_SIZE));
    } else if ops > 0 {
      BlankSector();
      assert Entries(Blank(META_SIZE))[0].Free?;
      AppendRecords(Blank(META_SIZE), 0, w, Min(ops - 1, RECORD_SIZE));
    }
  }

  // ---- What a cut append can leave behind ----

  /** A cut before the checksum whose blank tail happens to hash to the erased checksum field. */
  predicate Collides(w: Meta, n: nat) {
    6 <= n < 56 && Crc32(Encode(w)[..n] + Blank(56 - n) + [0, 0, 0, 0]) == 0xFFFF_FFFF
  }

  lemma HeadBytes(w: Meta)
    requires w.magic == META_MAGIC && w.schema == META_SCHEMA
    ensures Encode(w)[..6] == [0x41, 0x54, 0x4F, 0x45, 2, 0]
  {
    WordsAt(Fields(w), 0);
    WordsAt(Fields(w), 1);
    var e := Encode(w);
    assert e[4 * 0..4 * 0 + 4] == Word(META_MAGIC) == [0x41, 0x54, 0x4F, 0x45];
    assert e[4 * 1..4 * 1 + 4] == Word(Halves(w.schema, w.seqNo));
    assert e[0] == e[0..4][0] && e[1] == e[0..4][1] && e[2] == e[0..4][2] && e[3] == e[0..4][3];
    assert e[4] == e[4..8][0] && e[5] == e[4..8][1];
  }

  /** A valid record starts with the magic number and the schema version. */
  lemma ValidHead(r: seq<byte>)
    requires |r| == RECORD_SIZE && RecordValid(r)
    ensures r[..6] == [0x41, 0x54, 0x4F, 0x45, 2, 0]
  {
    EncodeDecode(r);
    HeadBytes(Decode(r));
  }

  /** Exactly when a record cut after n bytes validates. */
  lemma TornValidIff(w: Meta, n: nat)
    requires Valid(w) && n <= RECORD_SIZE
    ensures RecordValid(Torn(w, n)) <==> Torn(w, n) == Encode(w) || Collides(w, n)
  {
    var e, t := Encode(w), Torn(w, n);
    DecodeEncode(w);
    StoredCrc(e);
    StoredCrc(t);
    HeadBytes(w);
    if n < 6 {
      assert t[n] == ERASED;
      if RecordValid(t) { ValidHead(t); }
      assert e[n] == [0x41, 0x54, 0x4F, 0x45, 2, 0][n];
    } else {
      HeadMatches(e, t, n);
      if n < 56 {
        assert t[..56] == e[..n] + Blank(56 - n);
        BlankWord(t, 56);
      } else {
        assert t[..56] == e[..56];
        if t != e {
          var j :| 0 <= j < RECORD_SIZE && t[j] != e[j];
          DifferentWords(t, e, 56, j);
        }
      }
    }
  }

  lemma BlankWord(s: seq<byte>, at: nat)
    requires at + 4 <= |s| && forall i | at <= i < at + 4 :: s[i] == ERASED
    ensures ReadU32(s, at) == 0xFFFF_FFFF
  {
  }

  /** Records with the same first six bytes have the same magic number and schema version. */
  lemma HeadMatches(e: seq<byte>, t: seq<byte>, n: nat)
    requires |e| == RECORD_SIZE && |t| == RECORD_SIZE && 6 <= n && n <= RECORD_SIZE && t[..n] == e[..n]
    ensures Decode(t).magic == Decode(e).magic && Decode(t).schema == Decode(e).schema
  {
    assert forall i | 0 <= i < 6 :: t[i] == t[..n][i] == e[i];
    LowHalf(e, 4);
    LowHalf(t, 4);
    ReadWordsAt(e, 15, 0);
    ReadWordsAt(e, 15, 1);
    ReadWordsAt(t, 15, 0);
    ReadWordsAt(t, 15, 1);
  }

  lemma LowHalf(s: seq<byte>, at: nat)
    requires at + 4 <= |s|
    ensures Low(ReadU32(s, at)) == ReadU16(s, at)
  {
  }
}
