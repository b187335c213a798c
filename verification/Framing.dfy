/** AA 55 frames: the gateway's printer and its streaming, resynchronising parser. */
module Framing {
  import opened Bytes
  import opened Crc

  const HEAD_0: byte := 0xAA
  const HEAD_1: byte := 0x55
  const FRAME_BUF_SIZE: nat := 128
  /** Transmit buffers: the gateway task's and the boot loader's. */
  const GATEWAY_TX_SIZE: nat := 96
  const LOADER_TX_SIZE: nat := 64

  datatype Msg = Msg(kind: byte, payload: seq<byte>)

  datatype Parsed = Parsed(msgs: seq<Msg>, rest: seq<byte>)

  // ---- Parsing a whole stream ----

  /** At least five bytes, of which the first cannot start a frame. */
  predicate Skippable(s: seq<byte>) {
    |s| >= 5 && (s[0] != HEAD_0 || s[1] != HEAD_1 || s[2] < 1 || s[2] > FRAME_BUF_SIZE - 5)
  }

  /** The length of the frame a header announces. */
  function TotalLen(s: seq<byte>): nat
    requires |s| >= 5
  {
    2 + 1 + s[2] as int + 2
  }

  /** Nothing can be decided until more bytes arrive. */
  predicate Settled(s: seq<byte>) {
    |s| < 5 || (!Skippable(s) && |s| < TotalLen(s))
  }

  predicate CrcOk(f: seq<byte>)
    requires |f| >= 5
  {
    f[|f| - 2] as int + 0x100 * f[|f| - 1] as int == Crc16(f[2..|f| - 2])
  }

  /** What the frame at the head of s yields: its message, or nothing when its checksum is wrong. */
  function Message(f: seq<byte>): seq<Msg>
    requires |f| >= 6
  {
    if CrcOk(f) then [Msg(f[3], f[4..|f| - 2])] else []
  }

  function Onto(msgs: seq<Msg>, r: Parsed): Parsed {
    Parsed(msgs + r.msgs, r.rest)
  }

  /** Everything a stream yields, and the unsettled rest. */
  function Drain(s: seq<byte>): (r: Parsed)
    ensures Settled(r.rest) && |r.rest| <= |s|
    decreases |s|
  {
    if Settled(s) then Parsed([], s)
    else if Skippable(s) then Drain(s[1..])
    else
      var n := TotalLen(s);
      Onto(Message(s[..n]), Drain(s[n..]))
  }

  /** What is left to buffer is shorter than the largest frame, so the buffer never fills up. */
  lemma SettledIsShort(s: seq<byte>)
    requires Settled(s)
    ensures |s| < FRAME_BUF_SIZE
  {
  }

  function Then(a: Parsed, s: seq<byte>): Parsed {
    Onto(a.msgs, Drain(a.rest + s))
  }

  /** Parsing can be interrupted anywhere and resumed from the unsettled rest. */
  lemma {:induction false} DrainResumes(a: seq<byte>, b: seq<byte>)
    ensures Drain(a + b) == Then(Drain(a), b)
    decreases |a|
  {
    if Settled(a) {
      assert [] + Drain(a + b).msgs == Drain(a + b).msgs;
    } else if Skippable(a) {
      assert (a + b)[1..] == a[1..] + b;
      DrainResumes(a[1..], b);
    } else {
      var n := TotalLen(a);
      assert (a + b)[n..] == a[n..] + b;
      assert (a + b)[..n] == a[..n];
      DrainResumes(a[n..], b);
      var r := Drain(a[n..]);
      OntoTwice(Message(a[..n]), r.msgs, Drain(r.rest + b));
    }
  }

  /** One step of draining a buffer, with what has come out of it before. */
  lemma {:induction false} DrainStep(msgs: seq<Msg>, c: seq<byte>)
    ensures Settled(c) ==> Onto(msgs, Drain(c)) == Parsed(msgs, c)
    ensures Skippable(c) ==> Drain(c) == Drain(c[1..])
    ensures !Settled(c) && !Skippable(c) ==>
      Onto(msgs, Drain(c)) == Onto(msgs + Message(c[..TotalLen(c)]), Drain(c[TotalLen(c)..]))
  {
    if Settled(c) {
      assert msgs + [] == msgs;
    } else if !Skippable(c) {
      OntoTwice(msgs, Message(c[..TotalLen(c)]), Drain(c[TotalLen(c)..]));
    }
  }

  lemma OntoTwice(a: seq<Msg>, b: seq<Msg>, r: Parsed)
    ensures Onto(a, Parsed(b + r.msgs, r.rest)) == Onto(a + b, r)
  {
    assert a + (b + r.msgs) == (a + b) + r.msgs;
  }

  // ---- Printing ----

  function Printed(kind: byte, payload: seq<byte>): (f: seq<byte>)
    requires |payload| <= 254
    ensures |f| == |payload| + 6
  {
    var body := [(|payload| + 1) as byte, kind] + payload;
    var crc := Crc16(body);
    [HEAD_0, HEAD_1] + body + [crc % 0x100, crc / 0x100]
  }

  lemma PrintedParts(kind: byte, payload: seq<byte>)
    requires |payload| <= 254
    ensures var f := Printed(kind, payload);
            && f[0] == HEAD_0 && f[1] == HEAD_1 && f[2] == |payload| + 1 && f[3] == kind
            && f[4..|f| - 2] == payload && CrcOk(f)
  {
    var f := Printed(kind, payload);
    var body := [(|payload| + 1) as byte, kind] + payload;
    assert f[2..|f| - 2] == body;
    assert f[4..|f| - 2] == payload;
    assert f[|f| - 2] == Crc16(body) % 0x100 && f[|f| - 1] == Crc16(body) / 0x100;
  }

  // ---- Round trip with resynchronisation ----

  /** A frame on the wire: printed, or with an intact length but a wrong checksum. */
  datatype Item = Sent(kind: byte, payload: seq<byte>) | Damaged(wire: seq<byte>)

  predicate ItemOk(i: Item) {
    match i
    case Sent(_, payload) => |payload| <= FRAME_BUF_SIZE - 6
    case Damaged(w) =>
      && 6 <= |w| <= FRAME_BUF_SIZE && w[0] == HEAD_0 && w[1] == HEAD_1 && w[2] as int == |w| - 5 && !CrcOk(w)
  }

  function Wire(i: Item): (w: seq<byte>)
    requires ItemOk(i)
  {
    match i
    case Sent(kind, payload) => Printed(kind, payload)
    case Damaged(w) => w
  }

  function WireAll(items: seq<Item>): seq<byte>
    requires forall i | i in items :: ItemOk(i)
  {
    if items == [] then [] else Wire(items[0]) + WireAll(items[1..])
  }

  function Intact(items: seq<Item>): seq<Msg> {
    if items == [] then []
    else (if items[0].Sent? then [Msg(items[0].kind, items[0].payload)] else []) + Intact(items[1..])
  }

  lemma WireShape(i: Item)
    requires ItemOk(i)
    ensures var w := Wire(i);
            && 6 <= |w| <= FRAME_BUF_SIZE && w[0] == HEAD_0 && w[1] == HEAD_1 && w[2] as int == |w| - 5
            && Message(w) == (if i.Sent? then [Msg(i.kind, i.payload)] else [])
  {
    if i.Sent? { PrintedParts(i.kind, i.payload); }
  }

  lemma {:induction false} FramesParse(items: seq<Item>)
    requires forall i | i in items :: ItemOk(i)
    ensures Drain(WireAll(items)) == Parsed(Intact(items), [])
  {
    if items != [] {
      assert items[0] in items;
      WireShape(items[0]);
      var w, t := Wire(items[0]), WireAll(items[1..]);
      assert (w + t)[..|w|] == w && (w + t)[|w|..] == t;
      FramesParse(items[1..]);
    }
  }

  /** No AA 55 pair anywhere in g. */
  predicate NoPair(g: seq<byte>) {
    forall i | 0 <= i < |g| - 1 :: !(g[i] == HEAD_0 && g[i + 1] == HEAD_1)
  }

  /** Every AA 55 in g announces an impossible length, or would announce the AA of a frame behind g. */
  predicate Harmless(g: seq<byte>) {
    forall i | 0 <= i < |g| - 1 && g[i] == HEAD_0 && g[i + 1] == HEAD_1 ::
      i + 2 == |g| || g[i + 2] < 1 || g[i + 2] > FRAME_BUF_SIZE - 5
  }

  /** Such noise before a frame is skipped byte by byte, whatever the frame. */
  lemma {:induction false} NoiseSkipped(g: seq<byte>, s: seq<byte>)
    requires Harmless(g) && |s| >= 5 && s[0] == HEAD_0
    ensures Drain(g + s) == Drain(s)
    decreases |g|
  {
    if g == [] {
      assert g + s == s;
    } else {
      assert (g + s)[1..] == g[1..] + s;
      assert (g + s)[1] == if |g| > 1 then g[1] else s[0];
      assert (g + s)[2] == if |g| > 2 then g[2] else s[2 - |g|];
      NoiseSkipped(g[1..], s);
    }
  }

  lemma {:induction false} NoiseSilent(g: seq<byte>)
    requires Harmless(g)
    ensures Drain(g).msgs == []
    decreases |g|
  {
    if !Settled(g) {
      assert Skippable(g);
      NoiseSilent(g[1..]);
    }
  }

  /** Harmless noise, then any frames, some damaged: exactly the intact ones come out, in order, once each. */
  lemma {:induction false} ResynchronisedRoundTrip(g: seq<byte>, items: seq<Item>)
    requires Harmless(g) && forall i | i in items :: ItemOk(i)
    ensures Drain(g + WireAll(items)).msgs == Intact(items)
    ensures items != [] ==> Drain(g + WireAll(items)).rest == []
  {
    FramesParse(items);
    if items == [] {
      assert g + WireAll(items) == g;
      NoiseSilent(g);
    } else {
      assert items[0] in items;
      WireShape(items[0]);
      NoiseSkipped(g, WireAll(items));
    }
  }

  /** A complete frame with a wrong checksum yields nothing and leaves nothing behind. */
  lemma {:induction false} WrongCrcDropped(f: seq<byte>)
    requires ItemOk(Damaged(f))
    ensures Drain(f) == Parsed([], [])
  {
    FramesParse([Damaged(f)]);
    assert WireAll([Damaged(f)]) == f + [] == f;
  }

  /** One byte changed behind the length byte breaks the checksum. */
  lemma OneByteBreaksCrc(p: seq<byte>, f: seq<byte>, i: nat)
    requires |p| >= 6 && CrcOk(p) && OneByteApart(p, f, i) && i >= 3
    ensures !CrcOk(f)
  {
    var n := |p|;
    var a, b := p[2..n - 2], f[2..n - 2];
    if i < n - 2 {
      assert OneByteApart(a, b, i - 2) by {
        assert a[i - 2] == p[i] && b[i - 2] == f[i];
        assert forall j | 0 <= j < |a| && j != i - 2 :: a[j] == p[j + 2] == f[j + 2] == b[j];
      }
      Crc16DetectsByte(a, b, i - 2);
    } else {
      assert a == b;
    }
  }

  /** A frame with one byte of its type, payload or checksum changed is rejected. */
  lemma {:induction false} OneByteChangeDropped(kind: byte, payload: seq<byte>, f: seq<byte>, i: nat)
    requires |payload| <= FRAME_BUF_SIZE - 6 && OneByteApart(Printed(kind, payload), f, i) && i >= 3
    ensures Drain(f) == Parsed([], [])
  {
    PrintedParts(kind, payload);
    OneByteBreaksCrc(Printed(kind, payload), f, i);
    WrongCrcDropped(f);
  }

  // ---- Only frames with a correct checksum are dispatched ----

  /** Printed frames, each behind a gap. */
  function Woven(gaps: seq<seq<byte>>, msgs: seq<Msg>): seq<byte>
    requires |gaps| == |msgs| && forall m | m in msgs :: |m.payload| <= 254
  {
    if msgs == [] then []
    else gaps[0] + Printed(msgs[0].kind, msgs[0].payload) + Woven(gaps[1..], msgs[1..])
  }

  lemma FrameIsPrinted(f: seq<byte>)
    requires |f| >= 6 && f[0] == HEAD_0 && f[1] == HEAD_1 && f[2] as int == |f| - 5 && CrcOk(f)
    ensures |f| - 6 <= 254 && f == Printed(f[3], f[4..|f| - 2])
  {
    var body := f[2..|f| - 2];
    assert body == [(|f| - 5) as byte, f[3]] + f[4..|f| - 2];
    assert f == [HEAD_0, HEAD_1] + body + [f[|f| - 2], f[|f| - 1]];
  }

  /** The stream is the printed frames of the messages, each behind a gap, and a tail that ends in the rest. */
  ghost predicate Explains(s: seq<byte>, r: Parsed, gaps: seq<seq<byte>>, tail: seq<byte>) {
    && |gaps| == |r.msgs| && (forall m | m in r.msgs :: |m.payload| <= 254)
    && s == Woven(gaps, r.msgs) + tail && |r.rest| <= |tail| && tail[|tail| - |r.rest|..] == r.rest
  }

  /** Bytes that yield nothing widen the first gap. */
  lemma {:induction false} GapGrows(g: seq<byte>, s: seq<byte>, r: Parsed, gaps: seq<seq<byte>>, tail: seq<byte>)
    returns (gaps': seq<seq<byte>>, tail': seq<byte>)
    requires Explains(s, r, gaps, tail)
    ensures Explains(g + s, r, gaps', tail')
  {
    if gaps == [] {
      gaps', tail' := [], g + tail;
      assert tail'[|tail'| - |r.rest|..] == tail[|tail| - |r.rest|..];
    } else {
      gaps', tail' := [g + gaps[0]] + gaps[1..], tail;
      assert gaps'[1..] == gaps[1..];
      var f, w := Printed(r.msgs[0].kind, r.msgs[0].payload), Woven(gaps[1..], r.msgs[1..]);
      assert (g + gaps[0]) + f + w + tail == g + (gaps[0] + f + w + tail);
    }
  }

  lemma {:induction false} FrameFirst(m: Msg, s: seq<byte>, r: Parsed, gaps: seq<seq<byte>>, tail: seq<byte>)
    requires |m.payload| <= 254 && Explains(s, r, gaps, tail)
    ensures Explains(Printed(m.kind, m.payload) + s, Onto([m], r), [[]] + gaps, tail)
  {
    var gs, ms, f := [[]] + gaps, [m] + r.msgs, Printed(m.kind, m.payload);
    assert gs[1..] == gaps && ms[1..] == r.msgs;
    assert Woven(gs, ms) == [] + f + Woven(gaps, r.msgs);
    assert f + s == Woven(gs, ms) + tail;
  }

  /** Whatever is dispatched was printed: its frames stand in the stream, in this order and apart from each other. */
  lemma {:induction false} DrainIsPrinted(s: seq<byte>) returns (gaps: seq<seq<byte>>, tail: seq<byte>)
    ensures Explains(s, Drain(s), gaps, tail)
    decreases |s|
  {
    hide Explains, Printed, CrcOk;
    if Settled(s) {
      gaps, tail := [], s;
      NothingDispatched(s);
    } else if Skippable(s) {
      gaps, tail := DrainIsPrinted(s[1..]);
      gaps, tail := GapGrows([s[0]], s[1..], Drain(s[1..]), gaps, tail);
      assert s == [s[0]] + s[1..];
    } else {
      var n := TotalLen(s);
      var f, t := s[..n], s[n..];
      gaps, tail := DrainIsPrinted(t);
      assert s == f + t;
      if CrcOk(f) {
        FrameIsPrinted(f);
        FrameFirst(Msg(f[3], f[4..n - 2]), t, Drain(t), gaps, tail);
        gaps := [[]] + gaps;
      } else {
        gaps, tail := GapGrows(f, t, Drain(t), gaps, tail);
        assert Onto([], Drain(t)) == Drain(t);
      }
    }
  }

  lemma NothingDispatched(s: seq<byte>)
    ensures Explains(s, Parsed([], s), [], s)
  {
  }

  // ---- The byte-at-a-time parser ----

  class Parser {
    const frameBuf: array<byte>
    var frameLen: nat

    predicate Valid()
      reads this
    {
      frameBuf.Length == FRAME_BUF_SIZE && frameLen <= FRAME_BUF_SIZE
    }

    function Contents(): (s: seq<byte>)
      requires Valid()
      reads this, frameBuf
      ensures |s| == frameLen
    {
      frameBuf[..frameLen]
    }

    constructor ()
      ensures Valid() && fresh(frameBuf) && Contents() == []
    {
      frameBuf := new byte[FRAME_BUF_SIZE];
      frameLen := 0;
    }

    /** Moves the bytes from n on to the front. */
    method Discard(n: nat)
      requires Valid() && n <= frameLen
      modifies this`frameLen, frameBuf
      ensures Valid() && Contents() == old(Contents())[n..]
    {
      var k := 0;
      while k < frameLen - n
        invariant k <= frameLen - n && frameLen == old(frameLen)
        invariant forall j | 0 <= j < k :: frameBuf[j] == old(frameBuf[j + n])
        invariant forall j | k <= j < FRAME_BUF_SIZE :: frameBuf[j] == old(frameBuf[j])
      {
        frameBuf[k] := frameBuf[k + n];
        k := k + 1;
      }
      frameLen := frameLen - n;
    }

    method Append(b: byte)
      requires Valid() && frameLen < FRAME_BUF_SIZE
      modifies this`frameLen, frameBuf
      ensures Valid() && Contents() == old(Contents()) + [b]
    {
      frameBuf[frameLen] := b;
      frameLen := frameLen + 1;
    }

    /** Consumes the complete frame at the head of the buffer. */
    method TakeFrame() returns (msgs: seq<Msg>)
      requires Valid() && !Settled(Contents()) && !Skippable(Contents())
      modifies this`frameLen, frameBuf
      ensures Valid() && frameLen < old(frameLen)
      ensures msgs == Message(old(Contents())[..TotalLen(old(Contents()))])
      ensures Contents() == old(Contents())[TotalLen(old(Contents()))..]
    {
      ghost var c := Contents();
      assert frameBuf[2] == c[2];
      var total := 2 + 1 + frameBuf[2] as nat + 2;
      ghost var f := c[..total];
      assert total == TotalLen(c) && f == frameBuf[..total];
      var wireCrc := frameBuf[total - 2] as int + 0x100 * frameBuf[total - 1] as int;
      assert frameBuf[2..total - 2] == f[2..total - 2];
      assert frameBuf[4..total - 2] == f[4..total - 2];
      var calculated := ComputeCrc16(frameBuf[2..total - 2]);
      msgs := [];
      if wireCrc == calculated {
        msgs := [Msg(frameBuf[3], frameBuf[4..total - 2])];
      }
      Discard(total);
    }

    /** One received byte: the messages it completes. A full buffer would be dropped first. */
    method ProcessByte(b: byte) returns (msgs: seq<Msg>)
      requires Valid()
      modifies this`frameLen, frameBuf
      ensures Valid()
      ensures var s := if |old(Contents())| >= FRAME_BUF_SIZE then [b] else old(Contents()) + [b];
              Parsed(msgs, Contents()) == Drain(s)
    {
      if frameLen >= FRAME_BUF_SIZE {
        frameLen := 0;
      }
      Append(b);
      msgs := [];
      ghost var s := Contents();
      assert s == if |old(Contents())| >= FRAME_BUF_SIZE then [b] else old(Contents()) + [b];
      while frameLen >= 5
        invariant Valid()
        invariant Drain(s) == Onto(msgs, Drain(Contents()))
        decreases frameLen
      {
        ghost var c := Contents();
        assert c[0] == frameBuf[0] && c[1] == frameBuf[1] && c[2] == frameBuf[2];
        DrainStep(msgs, c);
        if frameBuf[0] != HEAD_0 || frameBuf[1] != HEAD_1 {
          Discard(1);
          continue;
        }
        if frameBuf[2] < 1 || frameBuf[2] as int > FRAME_BUF_SIZE - 5 {
          Discard(1);
          continue;
        }
        if frameLen < 2 + 1 + frameBuf[2] as int + 2 {
          break;
        }
        var taken := TakeFrame();
        msgs := msgs + taken;
      }
      DrainStep(msgs, Contents());
    }

    /** Feeding a stream byte by byte yields what parsing it in one piece does; the buffer never overflows. */
    method ProcessStream(stream: seq<byte>) returns (msgs: seq<Msg>)
      requires Valid() && Contents() == []
      modifies this`frameLen, frameBuf
      ensures Valid() && Parsed(msgs, Contents()) == Drain(stream)
      ensures |Contents()| < FRAME_BUF_SIZE
    {
      msgs := [];
      for i := 0 to |stream|
        invariant Valid() && Parsed(msgs, Contents()) == Drain(stream[..i])
      {
        SettledIsShort(Contents());
        assert stream[..i + 1] == stream[..i] + [stream[i]];
        DrainResumes(stream[..i], [stream[i]]);
        var more := ProcessByte(stream[i]);
        msgs := msgs + more;
      }
      SettledIsShort(Contents());
      assert stream[..|stream|] == stream;
    }
  }

  method CopyPayload(out: array<byte>, payload: seq<byte>)
    requires 4 + |payload| <= out.Length
    modifies out
    ensures out[..4 + |payload|] == old(out[..4]) + payload
  {
    var i := 0;
    while i < |payload|
      invariant i <= |payload| && out[..4 + i] == old(out[..4]) + payload[..i]
    {
      out[4 + i] := payload[i];
      i := i + 1;
    }
  }

  /** Builds a frame in a transmit buffer; refused when the frame would not fit it. */
  method SendFrame(kind: byte, payload: seq<byte>, capacity: nat) returns (frame: Option<seq<byte>>)
    requires |payload| <= 254 && capacity in {GATEWAY_TX_SIZE, LOADER_TX_SIZE}
    ensures frame == if |payload| + 6 <= capacity then Some(Printed(kind, payload)) else None
  {
    var wireLen := (|payload| + 1) as byte;
    if wireLen as int > capacity - 5 {
      return None;
    }
    var out := new byte[capacity];
    out[0], out[1], out[2], out[3] := HEAD_0, HEAD_1, wireLen, kind;
    assert out[..4] == [HEAD_0, HEAD_1, wireLen, kind];
    CopyPayload(out, payload);
    var idx := 4 + |payload|;
    ghost var body, head := [wireLen, kind] + payload, out[..idx];
    assert head == [HEAD_0, HEAD_1] + body;
    assert out[2..idx] == head[2..] == body;
    var crc := ComputeCrc16(out[2..idx]);
    out[idx] := crc % 0x100;
    out[idx + 1] := crc / 0x100;
    assert out[..idx + 2] == head + [crc % 0x100, crc / 0x100];
    frame := Some(out[..idx + 2]);
  }
}
