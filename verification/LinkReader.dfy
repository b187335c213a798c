/** The boot loader's own frame reader, and exactly which line noise it loses a frame to. */
module LinkReader {
  import opened Bytes
  import opened Crc
  import opened Framing

  /** What one read attempt yields and what it leaves unread; the input ending stands for the read timeout. */
  datatype Read = Read(msg: Option<Msg>, rest: seq<byte>)

  /** The input behind the first header found by looking at AA and the byte after it, two at a time. */
  function Sync(s: seq<byte>): Option<seq<byte>>
    decreases |s|
  {
    if s == [] then None
    else if s[0] != HEAD_0 then Sync(s[1..])
    else if |s| == 1 then None
    else if s[1] == HEAD_1 then Some(s[2..])
    else Sync(s[2..])
  }

  function ReadFrame(s: seq<byte>): Read {
    var t := Sync(s);
    if t.None? || t.value == [] then Read(None, [])
    else ReadBody(t.value)
  }

  /** The part behind the header: length, type, payload, checksum. */
  function ReadBody(t: seq<byte>): Read
    requires t != []
  {
    var n := t[0] as nat;
    if n < 1 then Read(None, t[1..])
    else if |t| < n + 3 then Read(None, [])
    else
      var crc := t[n + 1] as int + 0x100 * t[n + 2] as int;
      Read(if crc == Crc16(t[..n + 1]) then Some(Msg(t[1], t[2..n + 1])) else None, t[n + 3..])
  }

  lemma PrintedIsRead(kind: byte, payload: seq<byte>, rest: seq<byte>)
    requires |payload| <= 254
    ensures ReadBody(Printed(kind, payload)[2..] + rest) == Read(Some(Msg(kind, payload)), rest)
  {
    var f := Printed(kind, payload);
    PrintedParts(kind, payload);
    var t, n := f[2..] + rest, |payload| + 1;
    assert t[0] as int == n && t[1] == kind && t[n + 1] == f[|f| - 2] && t[n + 2] == f[|f| - 1];
    assert t[..n + 1] == f[2..|f| - 2];
    assert t[2..n + 1] == f[4..|f| - 2] == payload;
    assert t[n + 3..] == rest;
  }

  /** The noise ends in a run of AA bytes of which the reader has paired all but the last. */
  predicate Dangling(g: seq<byte>)
    decreases |g|
  {
    if g == [] then false
    else if g[0] != HEAD_0 then Dangling(g[1..])
    else if |g| == 1 then true
    else Dangling(g[2..])
  }

  /** Noise g = p followed by k bytes AA, p not ending in AA, leaves an AA dangling exactly when k is odd. */
  lemma {:induction false} DanglesOnOddRun(p: seq<byte>, k: nat)
    requires p != [] ==> p[|p| - 1] != HEAD_0
    ensures Dangling(p + Fill(k, HEAD_0)) <==> k % 2 == 1
    decreases |p|, k
  {
    var g := p + Fill(k, HEAD_0);
    if p == [] {
      assert g == Fill(k, HEAD_0);
      if k >= 2 {
        assert g[2..] == [] + Fill(k - 2, HEAD_0);
        DanglesOnOddRun([], k - 2);
      }
    } else if p[0] != HEAD_0 {
      assert g[1..] == p[1..] + Fill(k, HEAD_0);
      DanglesOnOddRun(p[1..], k);
    } else {
      assert g[2..] == p[2..] + Fill(k, HEAD_0);
      DanglesOnOddRun(p[2..], k);
    }
  }

  lemma {:induction false} SyncPassesNoise(g: seq<byte>, s: seq<byte>)
    requires NoPair(g) && s != [] && s[0] == HEAD_0
    ensures Sync(g + s) == if Dangling(g) then Sync(s[1..]) else Sync(s)
    decreases |g|
  {
    if g == [] {
      assert g + s == s;
    } else if g[0] != HEAD_0 {
      assert (g + s)[1..] == g[1..] + s;
      SyncPassesNoise(g[1..], s);
    } else if |g| == 1 {
      assert (g + s)[2..] == s[1..] && (g + s)[1] == HEAD_0;
    } else {
      assert (g + s)[2..] == g[2..] + s && (g + s)[1] == g[1] != HEAD_1;
      SyncPassesNoise(g[2..], s);
    }
  }

  lemma {:induction false} SyncTakesTwo(s: seq<byte>)
    ensures Sync(s).Some? ==> |Sync(s).value| + 2 <= |s|
    decreases |s|
  {
    if s != [] {
      if s[0] != HEAD_0 {
        SyncTakesTwo(s[1..]);
      } else if |s| > 1 && s[1] != HEAD_1 {
        SyncTakesTwo(s[2..]);
      }
    }
  }

  /** A message of n payload bytes takes n + 6 bytes of input. */
  lemma ReadTakes(s: seq<byte>)
    ensures var r := ReadFrame(s); r.msg.Some? ==> |r.rest| + |r.msg.value.payload| + 6 <= |s|
  {
    hide Crc16;
    SyncTakesTwo(s);
  }

  /**
   * A printed frame behind noise without AA 55 is read, and read whole, if and only if an even number of AA bytes
   * stands directly before it; otherwise its first byte is taken for noise and the frame is lost.
   */
  lemma NoiseOutcome(p: seq<byte>, k: nat, kind: byte, payload: seq<byte>, rest: seq<byte>)
    requires NoPair(p) && (p != [] ==> p[|p| - 1] != HEAD_0) && |payload| <= 254
    ensures var g, f := p + Fill(k, HEAD_0), Printed(kind, payload);
            && (ReadFrame(g + (f + rest)) == Read(Some(Msg(kind, payload)), rest) <==> k % 2 == 0)
            && (k % 2 == 1 ==> ReadFrame(g + (f + rest)) == ReadFrame(f[1..] + rest))
  {
    var g, f := p + Fill(k, HEAD_0), Printed(kind, payload);
    PrintedParts(kind, payload);
    DanglesOnOddRun(p, k);
    SyncPassesNoise(g, f + rest);
    assert (f + rest)[2..] == f[2..] + rest && (f + rest)[1..] == f[1..] + rest;
    PrintedIsRead(kind, payload, rest);
    ReadTakes(f[1..] + rest);
  }

  // ---- Only frames with a correct checksum are read ----

  /** What Sync finds stands directly behind an AA 55. */
  lemma {:induction false} SyncHeader(s: seq<byte>)
    ensures var t := Sync(s);
            t.Some? ==> |t.value| + 2 <= |s| && s[|s| - |t.value| - 2..] == [HEAD_0, HEAD_1] + t.value
    decreases |s|
  {
    if s == [] {
    } else if s[0] != HEAD_0 {
      SyncHeader(s[1..]);
    } else if |s| == 1 {
    } else if s[1] == HEAD_1 {
      assert s == [HEAD_0, HEAD_1] + s[2..];
    } else {
      SyncHeader(s[2..]);
    }
  }

  lemma BodyIsPrinted(t: seq<byte>)
    requires t != [] && ReadBody(t).msg.Some?
    ensures var r := ReadBody(t);
            && |r.msg.value.payload| <= 254
            && [HEAD_0, HEAD_1] + t == Printed(r.msg.value.kind, r.msg.value.payload) + r.rest
  {
    var n, r := t[0] as nat, ReadBody(t);
    var crc := Crc16(t[..n + 1]);
    assert t[..n + 1] == [(|r.msg.value.payload| + 1) as byte, r.msg.value.kind] + r.msg.value.payload;
    assert t[n + 1] == crc % 0x100 && t[n + 2] == crc / 0x100;
    assert t == t[..n + 1] + [t[n + 1], t[n + 2]] + t[n + 3..];
  }

  /** Whenever a message is read, its printed frame stands in the input directly before what is left unread. */
  lemma ReadIsPrinted(s: seq<byte>) returns (g: seq<byte>)
    requires ReadFrame(s).msg.Some?
    ensures var r := ReadFrame(s);
            && |r.msg.value.payload| <= 254
            && s == g + (Printed(r.msg.value.kind, r.msg.value.payload) + r.rest)
  {
    var t := Sync(s).value;
    SyncHeader(s);
    BodyIsPrinted(t);
    g := s[..|s| - |t| - 2];
    assert s == g + s[|s| - |t| - 2..];
  }

  lemma DamagedBody(f: seq<byte>, rest: seq<byte>)
    requires |f| >= 6 && f[2] as int == |f| - 5 && !CrcOk(f)
    ensures ReadBody(f[2..] + rest) == Read(None, rest)
  {
    var t, n := f[2..] + rest, |f| - 5;
    assert t[..n + 1] == f[2..|f| - 2];
    assert t[n + 1] == f[|f| - 2] && t[n + 2] == f[|f| - 1];
    assert t[n + 3..] == rest;
  }

  /** One byte of its type, payload or checksum changed on the line: the frame is dropped, and exactly the frame. */
  lemma DamagedIsDropped(p: seq<byte>, k: nat, kind: byte, payload: seq<byte>, f: seq<byte>, i: nat, rest: seq<byte>)
    requires NoPair(p) && (p != [] ==> p[|p| - 1] != HEAD_0) && k % 2 == 0 && |payload| <= 254
    requires OneByteApart(Printed(kind, payload), f, i) && i >= 3
    ensures ReadFrame((p + Fill(k, HEAD_0)) + (f + rest)) == Read(None, rest)
  {
    var g := p + Fill(k, HEAD_0);
    PrintedParts(kind, payload);
    OneByteBreaksCrc(Printed(kind, payload), f, i);
    DanglesOnOddRun(p, k);
    NoPairGrows(p, k);
    SyncPassesNoise(g, f + rest);
    assert (f + rest)[2..] == f[2..] + rest;
    DamagedBody(f, rest);
  }

  /** A header that announces no bytes costs the reader the header and nothing else. */
  lemma EmptyIsDropped(p: seq<byte>, k: nat, rest: seq<byte>)
    requires NoPair(p) && (p != [] ==> p[|p| - 1] != HEAD_0) && k % 2 == 0
    ensures ReadFrame((p + Fill(k, HEAD_0)) + ([HEAD_0, HEAD_1, 0] + rest)) == Read(None, rest)
  {
    var h: seq<byte> := [HEAD_0, HEAD_1, 0] + rest;
    DanglesOnOddRun(p, k);
    NoPairGrows(p, k);
    SyncPassesNoise(p + Fill(k, HEAD_0), h);
    assert h[2..] == [0] + rest;
  }

  /** A frame cut off by the read timeout is lost with everything received. */
  lemma CutOffIsLost(p: seq<byte>, k: nat, kind: byte, payload: seq<byte>, n: nat)
    requires NoPair(p) && (p != [] ==> p[|p| - 1] != HEAD_0) && k % 2 == 0 && |payload| <= 254
    requires 2 <= n < |payload| + 6
    ensures ReadFrame((p + Fill(k, HEAD_0)) + Printed(kind, payload)[..n]) == Read(None, [])
  {
    var f := Printed(kind, payload);
    PrintedParts(kind, payload);
    DanglesOnOddRun(p, k);
    NoPairGrows(p, k);
    SyncPassesNoise(p + Fill(k, HEAD_0), f[..n]);
    assert f[..n][2..] == f[2..n];
  }

  lemma NoPairGrows(p: seq<byte>, k: nat)
    requires NoPair(p)
    ensures NoPair(p + Fill(k, HEAD_0))
  {
  }

  /** Skips to the first header; `found` is false when the input ends first. */
  method FindHeader(input: seq<byte>, at: nat) returns (found: bool, next: nat)
    requires at <= |input|
    ensures next <= |input|
    ensures Sync(input[at..]) == if found then Some(input[next..]) else None
    ensures !found ==> next == |input|
  {
    next := at;
    found := false;
    while next < |input| && !found
      invariant at <= next <= |input|
      invariant Sync(input[at..]) == if found then Some(input[next..]) else Sync(input[next..])
      decreases !found, |input| - next
    {
      var b := input[next];
      next := next + 1;
      if b == HEAD_0 {
        if next == |input| { return; }
        b := input[next];
        next := next + 1;
        found := b == HEAD_1;
      }
    }
  }

  /** Length, type, payload and checksum, one byte at a time. */
  method ReceiveBody(input: seq<byte>, at: nat) returns (msg: Option<Msg>, next: nat)
    requires at < |input|
    ensures next <= |input| && Read(msg, input[next..]) == ReadBody(input[at..])
  {
    var wireLen := input[at];
    next := at + 1;
    if wireLen < 1 { return None, next; }
    if next == |input| { return None, next; }
    var kind := input[next];
    next := next + 1;
    var payload := [];
    while |payload| < wireLen as int - 1
      invariant |payload| <= wireLen as int - 1 && next == at + 2 + |payload| <= |input|
      invariant payload == input[at + 2..next]
    {
      if next == |input| { return None, next; }
      payload := payload + [input[next]];
      next := next + 1;
    }
    if |input| - next < 2 { return None, |input|; }
    var wireCrc := input[next] as int + 0x100 * input[next + 1] as int;
    next := next + 2;
    var body := [wireLen, kind] + payload;
    assert body == input[at..][..wireLen as int + 1];
    assert payload == input[at..][2..wireLen as int + 1];
    var computed := ComputeCrc16(body);
    msg := if wireCrc == computed then Some(Msg(kind, payload)) else None;
  }

  /** The reader as it runs, taking bytes from position `at` of the input. */
  method Receive(input: seq<byte>, at: nat) returns (msg: Option<Msg>, next: nat)
    requires at <= |input|
    ensures next <= |input| && Read(msg, input[next..]) == ReadFrame(input[at..])
  {
    var found;
    found, next := FindHeader(input, at);
    if !found || next == |input| { return None, |input|; }
    msg, next := ReceiveBody(input, next);
  }
}
