/** A PREPARE that is refused during a session: exactly when DATA frames can then reach the home slot. */
module Overrun {
  import opened Bytes
  import opened Flash
  import opened MetaRecord
  import opened MetaLog
  import opened MetaStore
  import opened Session
  import opened Boot
  import opened Machine
  import opened Safety
  import opened Transfer

  // ---- One byte ----

  /** A DATA payload with d as its data. */
  function DataPayload(seqNo: u16, offset: u32, d: seq<byte>): (p: seq<byte>)
    requires |d| < 0x1_0000
    ensures |p| == 8 + |d|
  {
    [seqNo % 0x100, seqNo / 0x100] + Word(offset) + [|d| % 0x100, |d| / 0x100] + d
  }

  lemma DataFields(seqNo: u16, offset: u32, d: seq<byte>)
    requires |d| < 0x1_0000
    ensures var p := DataPayload(seqNo, offset, d);
            DataSeq(p) == seqNo && DataOffset(p) == offset && DataLen(p) == |d| && p[8..] == d
  {
    var p := DataPayload(seqNo, offset, d);
    assert p[2..6] == Word(offset);
    ReadSlice(p, 2);
    WordRead(offset);
  }

  /** The session takes at least one more byte, at a cell of flash. */
  predicate TakesMore(x: Xfer) {
    && XferOk(x) && x.ctx.active && x.ctx.chunk > 0 && x.ctx.offset < x.ctx.size
    && Index(x.ctx.target) + x.ctx.offset < FLASH_SIZE
  }

  function OneByte(x: Xfer, v: byte): Delivery
    requires XferOk(x)
  {
    Delivery(DataPayload(x.ctx.expected, x.ctx.offset, [v]), 1)
  }

  /** A byte that only clears bits of the next cell is written there. */
  lemma {:induction false} ByteTaken(x: Xfer, m: Meta, v: byte)
    requires TakesMore(x) && And(x.mem[Index(x.ctx.target) + x.ctx.offset], v) == v
    ensures Deliver(x, m, OneByte(x, v))
         == Xfer(x.mem[Index(x.ctx.target) + x.ctx.offset := v],
                 x.ctx.(offset := x.ctx.offset + 1, expected := Next16(x.ctx.expected)))
    ensures Data(x.mem, x.ctx, m, OneByte(x, v).payload, 1).reply == Ack(x.ctx.expected)
  {
    var at, p := Index(x.ctx.target) + x.ctx.offset, OneByte(x, v).payload;
    DataFields(x.ctx.expected, x.ctx.offset, [v]);
    assert Programmed(x.mem, at, [v], 1) == x.mem[at := v];
    assert WriteReports(x.mem, at, [v], 1);
  }

  /** Rewriting cells with what they hold moves the session on, until it can clear the cell at position pos. */
  lemma {:induction false} ClearsAt(x: Xfer, m: Meta, pos: nat) returns (ds: seq<Delivery>)
    requires XferOk(x) && x.ctx.active && x.ctx.chunk > 0 && x.ctx.offset <= pos < x.ctx.size
    requires Index(x.ctx.target) + pos < FLASH_SIZE
    ensures DeliverAll(x, m, ds).mem == x.mem[Index(x.ctx.target) + pos := 0]
    decreases pos - x.ctx.offset
  {
    var at := Index(x.ctx.target) + x.ctx.offset;
    var v: byte := if x.ctx.offset == pos then 0 else x.mem[at];
    AndSelf(x.mem[at]);
    ByteTaken(x, m, v);
    hide Deliver, OneByte, And;
    var d, y := OneByte(x, v), Deliver(x, m, OneByte(x, v));
    if x.ctx.offset == pos {
      ds := [d];
      assert DeliverAll(y, m, [d][1..]) == y;
    } else {
      assert y.mem == x.mem;
      var rest := ClearsAt(y, m, pos);
      ds := [d] + rest;
      assert ds[1..] == rest;
    }
  }

  // ---- When DATA frames reach the home slot ----

  /** The session writes to slot A, may go on into slot B, and finds something to clear there. */
  ghost predicate Overruns(x: Xfer)
    requires XferOk(x)
  {
    && x.ctx.target == SLOT_A_BASE && x.ctx.chunk > 0
    && exists i :: 0 <= i < SLOT_SIZE && i < x.ctx.size - SLOT_SIZE && SlotBytes(x.mem, SLOT_B)[i] != 0
  }

  /** A session for one slot whose position, in slot A, has not passed the slot's end. */
  predicate Placed(x: Xfer, home: byte) {
    && XferOk(x) && IsSlot(home) && x.ctx.active && x.ctx.target == SlotBase(Other(home))
    && (x.ctx.target == SLOT_A_BASE ==> x.ctx.offset <= SLOT_SIZE)
  }

  lemma DeliveryShut(x: Xfer, m: Meta, d: Delivery, home: byte)
    requires XferOk(x) && IsSlot(home) && x.ctx.active && x.ctx.target == SlotBase(Other(home)) && !Overruns(x)
    ensures var y := Deliver(x, m, d);
            && SlotBytes(y.mem, home) == SlotBytes(x.mem, home)
            && y.ctx == x.ctx.(offset := y.ctx.offset, expected := y.ctx.expected)
  {
    var c, p, y := x.ctx, d.payload, Deliver(x, m, d);
    if |p| >= 8 && !IsDuplicate(c, p) && DataObjection(c, p).None? {
      var at, n := Index(c.target) + c.offset, Min(d.ops, |p[8..]|);
      assert y.mem == Programmed(x.mem, at, p[8..], n);
      ProgramShut(x, at, p[8..], n, home);
    } else {
      assert y.mem == x.mem;
    }
  }

  lemma ProgramShut(x: Xfer, at: nat, d: seq<byte>, n: nat, home: byte)
    requires XferOk(x) && IsSlot(home) && x.ctx.target == SlotBase(Other(home)) && !Overruns(x)
    requires at == Index(x.ctx.target) + x.ctx.offset && n <= |d| <= x.ctx.chunk && x.ctx.offset + |d| <= x.ctx.size
    ensures SlotBytes(Programmed(x.mem, at, d, n), home) == SlotBytes(x.mem, home)
  {
    var t, base := Programmed(x.mem, at, d, n), SlotAt(home);
    forall i | 0 <= i < SLOT_SIZE ensures SlotBytes(t, home)[i] == SlotBytes(x.mem, home)[i] {
      var j := base + i;
      assert SlotBytes(t, home)[i] == t[j] && SlotBytes(x.mem, home)[i] == x.mem[j];
      if at <= j < at + n {
        assert home == SLOT_B && i < x.ctx.size - SLOT_SIZE;
        assert SlotBytes(x.mem, SLOT_B)[i] == 0;
      }
    }
  }

  lemma {:induction false} AllShut(x: Xfer, m: Meta, ds: seq<Delivery>, home: byte)
    requires XferOk(x) && IsSlot(home) && x.ctx.active && x.ctx.target == SlotBase(Other(home)) && !Overruns(x)
    ensures SlotBytes(DeliverAll(x, m, ds).mem, home) == SlotBytes(x.mem, home)
    decreases |ds|
  {
    if ds != [] {
      DeliveryShut(x, m, ds[0], home);
      AllShut(Deliver(x, m, ds[0]), m, ds[1..], home);
    }
  }

  /** Some sequence of DATA frames changes a byte of the home slot if and only if the session overruns. */
  lemma OverrunIff(x: Xfer, m: Meta, home: byte)
    requires Placed(x, home)
    ensures (exists ds :: SlotBytes(DeliverAll(x, m, ds).mem, home) != SlotBytes(x.mem, home)) <==> Overruns(x)
  {
    if Overruns(x) {
      var i :| 0 <= i < SLOT_SIZE && i < x.ctx.size - SLOT_SIZE && SlotBytes(x.mem, SLOT_B)[i] != 0;
      var ds := ClearsAt(x, m, SLOT_SIZE + i);
      var t := DeliverAll(x, m, ds).mem;
      assert SlotBytes(t, SLOT_B)[i] == t[SlotAt(SLOT_B) + i] == 0;
    } else {
      forall ds ensures SlotBytes(DeliverAll(x, m, ds).mem, home) == SlotBytes(x.mem, home) {
        AllShut(x, m, ds, home);
      }
    }
  }

  // ---- The refused PREPARE ----

  /** A PREPARE in a session that is answered with a refusal. */
  predicate Refused(st: State, e: Event)
    requires StateOk(st)
  {
    && e.kind.Receive? && !e.cut && e.kind.frame.kind == OTA_PREPARE && |e.kind.frame.payload| >= 12
    && st.phase.Loader? && st.phase.ctx.active
    && Handle(st.mem, st.phase.ctx, st.phase.meta, e.kind.frame, e.ops).reply.Nack?
  }

  /** It replaces size, checksum, chunk size and version of the session, and may erase parts of its slot. */
  lemma RefusedPrepare(st: State, e: Event)
    requires Inv(st) && Refused(st, e)
    ensures var c, m, p := st.phase.ctx, st.phase.meta, e.kind.frame.payload;
            && Next(st, e).phase == Loader(m, Announced(c, p), st.phase.stuck)
            && OnlySlot(st.mem, Next(st, e).mem, Other(m.active))
            && (SessionSafe(Announced(c, p), m) <==> Contained(Announced(c, p)))
  {
    hide LogOk, LogOf, Sane;
    var c, m, f := st.phase.ctx, st.phase.meta, e.kind.frame;
    assert Handle(st.mem, c, m, f, e.ops) == Prepare(st.mem, c, m, f.payload, e.ops);
    HandleStays(st.mem, c, m, f, e.ops);
  }

  /** The session as DATA frames find it. */
  function XferOf(st: State): (x: Xfer)
    requires StateOk(st) && st.phase.Loader?
    ensures XferOk(x)
  {
    Xfer(st.mem, st.phase.ctx)
  }

  /**
   * After a refused PREPARE some sequence of DATA frames changes a byte of the home slot if and only if home is B,
   * the announced chunk size is not 0, and the announced size reaches a byte of slot B that is not clear yet.
   */
  lemma RefusedReachesHomeIff(st: State, e: Event)
    requires Inv(st) && Refused(st, e)
    ensures var st', p, home := Next(st, e), e.kind.frame.payload, st.phase.meta.active;
            && st'.phase.Loader?
            && ((exists ds ::
                   SlotBytes(DeliverAll(XferOf(st'), st'.phase.meta, ds).mem, home) != SlotBytes(st.mem, home))
                <==> home == SLOT_B && ReadU16(p, 10) > 0
                     && exists i :: 0 <= i < SLOT_SIZE && i < ReadU32(p, 2) - SLOT_SIZE
                                    && SlotBytes(st.mem, SLOT_B)[i] != 0)
  {
    hide LogOk, LogOf, DeliverAll;
    RefusedPrepare(st, e);
    OverrunIff(XferOf(Next(st, e)), Next(st, e).phase.meta, st.phase.meta.active);
  }

  lemma BootableNotClear(mem: seq<byte>, eff: Meta) returns (i: nat)
    requires |mem| == FLASH_SIZE && ImageOk(mem, eff, SLOT_B)
    ensures i < 4 && SlotBytes(mem, SLOT_B)[i] != 0
  {
    var at := SlotAt(SLOT_B);
    ReadInSlice(mem, at, at + SLOT_SIZE, 0);
    i := NonzeroByte(SlotBytes(mem, SLOT_B));
  }

  lemma NonzeroByte(s: seq<byte>) returns (i: nat)
    requires |s| >= 4 && And(ReadU32(s, 0), SP_MASK) == 0x2000_0000
    ensures i < 4 && s[i] != 0
  {
    i := if s[0] != 0 then 0 else if s[1] != 0 then 1 else if s[2] != 0 then 2 else 3;
  }

  /** A bootable home slot is never clear: once four bytes are in reach, containment is exactly what protects it. */
  lemma BootableOverruns(x: Xfer, eff: Meta)
    requires Placed(x, SLOT_B) && ImageOk(x.mem, eff, SLOT_B)
    requires x.ctx.size <= SLOT_SIZE || x.ctx.size >= SLOT_SIZE + 4
    ensures Overruns(x) <==> !Contained(x.ctx)
  {
    var i := BootableNotClear(x.mem, eff);
    hide ImageOk;
    assert SlotBytes(x.mem, SLOT_B)[i] != 0;
  }

  /** A PREPARE payload without target and version. */
  function PreparePayload(seqNo: u16, size: u32, crc: u32, chunk: u16): (p: seq<byte>)
    ensures |p| == 12
  {
    [seqNo % 0x100, seqNo / 0x100] + Word(size) + Word(crc) + [chunk % 0x100, chunk / 0x100]
  }

  lemma PrepareFields(seqNo: u16, size: u32, crc: u32, chunk: u16)
    ensures var p := PreparePayload(seqNo, size, crc, chunk);
            ReadU16(p, 0) == seqNo && ReadU32(p, 2) == size && ReadU32(p, 6) == crc && ReadU16(p, 10) == chunk
  {
    var p := PreparePayload(seqNo, size, crc, chunk);
    assert p[2..6] == Word(size) && p[6..10] == Word(crc);
    ReadSlice(p, 2);
    ReadSlice(p, 6);
    WordRead(size);
    WordRead(crc);
  }

  /** The input that shows it: size 0x60001 and chunk size 1 announced to a full session on slot A, then one byte. */
  lemma RefusedPrepareReachesHome(st: State)
    requires Inv(st) && st.phase.Loader? && st.phase.meta.active == SLOT_B
    requires st.phase.ctx.active && st.phase.ctx.offset == SLOT_SIZE && SlotBytes(st.mem, SLOT_B)[0] != 0
    ensures var p, d := PreparePayload(0, 0x6_0001, 0, 1), DataPayload(st.phase.ctx.expected, 0x6_0000, [0]);
            var prepare := Event(Receive(Frame(OTA_PREPARE, p)), 3, false);
            var data := Event(Receive(Frame(OTA_DATA, d)), 1, false);
            && Refused(st, prepare) && !Contained(Announced(st.phase.ctx, p))
            && SlotBytes(Next(Next(st, prepare), data).mem, Home(st)) != SlotBytes(st.mem, Home(st))
  {
    hide LogOk, LogOf, Data, PreparePayload, DataPayload, Next;
    PrepareFields(0, 0x6_0001, 0, 1);
    OneByteCleared(st, PreparePayload(0, 0x6_0001, 0, 1));
  }

  lemma OneByteCleared(st: State, p: seq<byte>)
    requires Inv(st) && st.phase.Loader? && st.phase.meta.active == SLOT_B
    requires st.phase.ctx.active && st.phase.ctx.offset == SLOT_SIZE && SlotBytes(st.mem, SLOT_B)[0] != 0
    requires |p| == 12 && ReadU32(p, 2) == 0x6_0001 && ReadU16(p, 10) == 1
    ensures var d := DataPayload(st.phase.ctx.expected, 0x6_0000, [0]);
            var prepare := Event(Receive(Frame(OTA_PREPARE, p)), 3, false);
            var data := Event(Receive(Frame(OTA_DATA, d)), 1, false);
            && Refused(st, prepare) && !Contained(Announced(st.phase.ctx, p))
            && SlotBytes(Next(Next(st, prepare), data).mem, SLOT_B)[0] == 0
  {
    hide LogOk, LogOf, Data;
    var prepare := Event(Receive(Frame(OTA_PREPARE, p)), 3, false);
    assert Handle(st.mem, st.phase.ctx, st.phase.meta, prepare.kind.frame, 3).reply == Nack(ReadU16(p, 0), BadPayload);
    RefusedPrepare(st, prepare);
    var x := XferOf(Next(st, prepare));
    ByteTaken(x, st.phase.meta, 0);
  }
}
