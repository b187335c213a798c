/** Image transfer: what any sequence of DATA frames leaves in the slot, and why retransmission is harmless. */
module Transfer {
  import opened Bytes
  import opened Flash
  import opened MetaRecord
  import opened MetaLog
  import opened Session

  /** One DATA frame as delivered; `ops` flash operations succeed while it is handled. */
  datatype Delivery = Delivery(payload: seq<byte>, ops: nat)

  datatype Xfer = Xfer(mem: seq<byte>, ctx: Ctx)

  predicate XferOk(x: Xfer) {
    |x.mem| == FLASH_SIZE && CtxOk(x.ctx)
  }

  function Deliver(x: Xfer, m: Meta, d: Delivery): (r: Xfer)
    requires XferOk(x)
    ensures XferOk(r)
  {
    var s := Data(x.mem, x.ctx, m, d.payload, d.ops);
    Xfer(s.mem, s.ctx)
  }

  function DeliverAll(x: Xfer, m: Meta, ds: seq<Delivery>): (r: Xfer)
    requires XferOk(x)
    ensures XferOk(r)
    decreases |ds|
  {
    if ds == [] then x else DeliverAll(Deliver(x, m, ds[0]), m, ds[1..])
  }

  /** The session took the frame's data: the write position moved. */
  predicate Takes(x: Xfer, m: Meta, d: Delivery)
    requires XferOk(x)
  {
    Deliver(x, m, d).ctx.offset != x.ctx.offset
  }

  /** The data of the frames taken, in order. */
  function Taken(x: Xfer, m: Meta, ds: seq<Delivery>): seq<byte>
    requires XferOk(x)
    decreases |ds|
  {
    if ds == [] then []
    else
      (if Takes(x, m, ds[0]) then ds[0].payload[8..] else []) + Taken(Deliver(x, m, ds[0]), m, ds[1..])
  }

  function CountTaken(x: Xfer, m: Meta, ds: seq<Delivery>): nat
    requires XferOk(x)
    decreases |ds|
  {
    if ds == [] then 0
    else (if Takes(x, m, ds[0]) then 1 else 0) + CountTaken(Deliver(x, m, ds[0]), m, ds[1..])
  }

  /** An active session whose window lies in its slot. */
  predicate Sending(x: Xfer) {
    XferOk(x) && x.ctx.active && x.ctx.size <= SLOT_SIZE && x.ctx.offset <= x.ctx.size
  }

  /** The bytes written so far. */
  function Received(x: Xfer): (r: seq<byte>)
    requires Sending(x)
    ensures |r| == x.ctx.offset
  {
    SliceAt(x.mem, Index(x.ctx.target), x.ctx.offset)
  }

  function SliceAt(mem: seq<byte>, at: nat, n: nat): (r: seq<byte>)
    requires at + n <= |mem|
    ensures |r| == n
  {
    mem[at..at + n]
  }

  lemma DeliverStep(x: Xfer, m: Meta, d: Delivery)
    requires Sending(x)
    ensures var y := Deliver(x, m, d);
            && Sending(y) && y.ctx == x.ctx.(offset := y.ctx.offset, expected := y.ctx.expected)
            && (Takes(x, m, d) ==>
                  && |d.payload| > 8 && DataOffset(d.payload) == x.ctx.offset && DataSeq(d.payload) == x.ctx.expected
                  && DataLen(d.payload) == |d.payload| - 8
                  && y.ctx.offset == x.ctx.offset + |d.payload| - 8
                  && y.ctx.expected == Next16(x.ctx.expected)
                  && Received(y) == Received(x) + d.payload[8..])
            && (!Takes(x, m, d) ==> y.ctx == x.ctx && Received(y) == Received(x))
  {
    var c, p := x.ctx, d.payload;
    if |p| >= 8 && !IsDuplicate(c, p) && DataObjection(c, p).None? {
      var at, data := Index(c.target) + c.offset, p[8..];
      var n := Min(d.ops, |data|);
      var mem' := Programmed(x.mem, at, data, n);
      assert Deliver(x, m, d).mem == mem';
      assert mem'[Index(c.target)..at] == x.mem[Index(c.target)..at];
      if WriteReports(x.mem, at, data, n) {
        WriteFits(x.mem, at, data, n);
        WriteIsCopy(x.mem, at, data, n);
        SpliceSlice(x.mem, Index(c.target), at, data);
      }
    }
  }

  lemma SpliceSlice(s: seq<byte>, lo: nat, at: nat, d: seq<byte>)
    requires lo <= at && at + |d| <= |s|
    ensures Splice(s, at, d)[lo..at + |d|] == s[lo..at] + d
  {
  }

  /**
   * For any sequence of DATA frames, however many, lost, repeated, stale or failing to program, the slot holds
   * the data taken so far, back to back.
   */
  lemma {:induction false} SlotHoldsTaken(x: Xfer, m: Meta, ds: seq<Delivery>)
    requires Sending(x)
    ensures Sending(DeliverAll(x, m, ds))
    ensures Received(DeliverAll(x, m, ds)) == Received(x) + Taken(x, m, ds)
    decreases |ds|
  {
    hide Deliver, Takes, Received, XferOk;
    if ds == [] {
      assert Received(x) + [] == Received(x);
    } else {
      var y := Deliver(x, m, ds[0]);
      DeliverStep(x, m, ds[0]);
      SlotHoldsTaken(y, m, ds[1..]);
      var head := if Takes(x, m, ds[0]) then ds[0].payload[8..] else [];
      assert Received(y) == Received(x) + head;
      assert Received(x) + (head + Taken(y, m, ds[1..])) == (Received(x) + head) + Taken(y, m, ds[1..]);
    }
  }

  /** The expected sequence number has counted the frames taken, modulo 2^16. */
  lemma {:induction false} ExpectedCounts(x: Xfer, m: Meta, ds: seq<Delivery>)
    requires Sending(x)
    ensures DeliverAll(x, m, ds).ctx.expected == (x.ctx.expected + CountTaken(x, m, ds)) % 0x1_0000
    decreases |ds|
  {
    hide Deliver, Takes, Received, XferOk;
    if ds != [] {
      DeliverStep(x, m, ds[0]);
      ExpectedCounts(Deliver(x, m, ds[0]), m, ds[1..]);
    }
  }

  // ---- Retransmissions ----

  /** The frame taken last, once x has handled d. */
  function LastTaken(x: Xfer, m: Meta, last: Option<seq<byte>>, d: Delivery): Option<seq<byte>>
    requires XferOk(x)
  {
    if Takes(x, m, d) then Some(d.payload) else last
  }

  /** The deliveries without the repetitions of the frame taken last. */
  function Stripped(x: Xfer, m: Meta, last: Option<seq<byte>>, ds: seq<Delivery>): seq<Delivery>
    requires XferOk(x)
    decreases |ds|
  {
    if ds == [] then []
    else if last == Some(ds[0].payload) then Stripped(x, m, last, ds[1..])
    else [ds[0]] + Stripped(Deliver(x, m, ds[0]), m, LastTaken(x, m, last, ds[0]), ds[1..])
  }

  /** The session still stands where taking `last` left it. */
  predicate StandsAfter(c: Ctx, last: Option<seq<byte>>) {
    last.Some? ==>
      && |last.value| >= 8 && DataLen(last.value) == |last.value| - 8
      && DataSeq(last.value) == (c.expected - 1) % 0x1_0000
      && DataOffset(last.value) + DataLen(last.value) == c.offset
  }

  lemma StandsOn(x: Xfer, m: Meta, last: Option<seq<byte>>, d: Delivery)
    requires Sending(x) && StandsAfter(x.ctx, last)
    ensures StandsAfter(Deliver(x, m, d).ctx, LastTaken(x, m, last, d))
  {
    hide Deliver, Received, XferOk;
    DeliverStep(x, m, d);
  }

  /** The frame taken last, delivered again, is acknowledged and changes nothing. */
  lemma RetransmissionIdle(x: Xfer, m: Meta, d: Delivery)
    requires Sending(x) && StandsAfter(x.ctx, Some(d.payload))
    ensures Deliver(x, m, d) == x
    ensures Data(x.mem, x.ctx, m, d.payload, d.ops).reply == Ack(DataSeq(d.payload))
  {
  }

  /** Deleting the retransmissions of the frame taken last changes neither flash nor session. */
  lemma {:induction false} RetransmissionsIrrelevant(x: Xfer, m: Meta, last: Option<seq<byte>>, ds: seq<Delivery>)
    requires Sending(x) && StandsAfter(x.ctx, last)
    ensures DeliverAll(x, m, Stripped(x, m, last, ds)) == DeliverAll(x, m, ds)
    decreases |ds|
  {
    if ds == [] {
    } else if last == Some(ds[0].payload) {
      RetransmissionIdle(x, m, ds[0]);
      RetransmissionsIrrelevant(x, m, last, ds[1..]);
    } else {
      var y, rest := Deliver(x, m, ds[0]), LastTaken(x, m, last, ds[0]);
      DeliverStep(x, m, ds[0]);
      StandsOn(x, m, last, ds[0]);
      RetransmissionsIrrelevant(y, m, rest, ds[1..]);
      var s := Stripped(y, m, rest, ds[1..]);
      assert ([ds[0]] + s)[1..] == s;
    }
  }

  // ---- Frames that carry one image ----

  /** The frame's data is the part of the image that its offset names. */
  predicate Carries(p: seq<byte>, image: seq<byte>) {
    |p| >= 8 && DataOffset(p) + (|p| - 8) <= |image| && p[8..] == image[DataOffset(p)..DataOffset(p) + (|p| - 8)]
  }

  lemma CarriedStep(x: Xfer, m: Meta, d: Delivery, image: seq<byte>)
    requires Sending(x) && x.ctx.size == |image| && Received(x) == image[..x.ctx.offset]
    requires Carries(d.payload, image)
    ensures var y := Deliver(x, m, d);
            Sending(y) && y.ctx.size == |image| && Received(y) == image[..y.ctx.offset]
  {
    DeliverStep(x, m, d);
    var o, k := x.ctx.offset, |d.payload| - 8;
    if Takes(x, m, d) {
      assert image[..o] + image[o..o + k] == image[..o + k];
    }
  }
}
