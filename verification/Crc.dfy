/** The two reflected CRCs of the firmware and what they detect. */
module Crc {
  import opened Bytes

  const POLY32: u32 := 0xEDB8_8320
  const POLY16: u16 := 0xA001

  function Bit(poly: nat, r: nat): nat {
    if r % 2 == 1 then Xor(r / 2, poly) else r / 2
  }

  function Bits(poly: nat, r: nat, n: nat): nat {
    if n == 0 then r else Bit(poly, Bits(poly, r, n - 1))
  }

  function Feed(poly: nat, r: nat, data: seq<byte>): nat {
    if data == [] then r
    else Bits(poly, Xor(Feed(poly, r, data[..|data| - 1]), data[|data| - 1]), 8)
  }

  function Crc32(data: seq<byte>): u32 {
    FeedBelow(POLY32, 0xFFFF_FFFF, data, 32);
    0xFFFF_FFFF - Feed(POLY32, 0xFFFF_FFFF, data)
  }

  function Crc16(data: seq<byte>): u16 {
    FeedBelow(POLY16, 0xFFFF, data, 16);
    Feed(POLY16, 0xFFFF, data)
  }

  // ---- Registers stay in width ----

  ghost predicate Fits(poly: nat, w: nat) {
    w >= 8 && Pow2(w - 1) <= poly < Pow2(w)
  }

  lemma FitsBoth()
    ensures Fits(POLY32, 32) && Fits(POLY16, 16)
  {
    Pow2Values();
  }

  lemma {:induction false} ByteFits(b: byte, w: nat)
    requires w >= 8
    ensures b < Pow2(w)
  {
    Pow2Values();
    Pow2Grows(8, w);
  }

  lemma {:induction false} Pow2Grows(a: nat, b: nat)
    requires a <= b
    ensures Pow2(a) <= Pow2(b)
    decreases b - a
  {
    if a < b { Pow2Grows(a, b - 1); }
  }

  lemma {:induction false} BitsBelow(poly: nat, r: nat, n: nat, w: nat)
    requires Fits(poly, w) && r < Pow2(w)
    ensures Bits(poly, r, n) < Pow2(w)
  {
    if n > 0 {
      BitsBelow(poly, r, n - 1, w);
      XorBelow(Bits(poly, r, n - 1) / 2, poly, w);
    }
  }

  lemma {:induction false} FeedWithin(poly: nat, r: nat, data: seq<byte>, w: nat)
    requires Fits(poly, w) && r < Pow2(w)
    ensures Feed(poly, r, data) < Pow2(w)
  {
    if data != [] {
      var b := data[|data| - 1];
      FeedWithin(poly, r, data[..|data| - 1], w);
      ByteFits(b, w);
      XorBelow(Feed(poly, r, data[..|data| - 1]), b, w);
      BitsBelow(poly, Xor(Feed(poly, r, data[..|data| - 1]), b), 8, w);
    }
  }

  lemma {:induction false} FeedBelow(poly: nat, r: nat, data: seq<byte>, w: nat)
    requires (w == 32 && poly == POLY32 && r == 0xFFFF_FFFF) || (w == 16 && poly == POLY16 && r == 0xFFFF)
    ensures w == 32 ==> Feed(poly, r, data) <= 0xFFFF_FFFF
    ensures w == 16 ==> Feed(poly, r, data) <= 0xFFFF
  {
    FitsBoth();
    Pow2Values();
    FeedWithin(poly, r, data, w);
  }

  // ---- Every step is injective on the register ----

  lemma {:induction false} BitInjective(poly: nat, r: nat, t: nat, w: nat)
    requires Fits(poly, w) && r < Pow2(w) && t < Pow2(w)
    requires Bit(poly, r) == Bit(poly, t)
    ensures r == t
  {
    XorTopBit(r / 2, poly, w - 1);
    XorTopBit(t / 2, poly, w - 1);
    if r % 2 == 1 && t % 2 == 1 {
      XorCancel(r / 2, t / 2, poly);
    }
  }

  lemma {:induction false} BitsInjective(poly: nat, r: nat, t: nat, n: nat, w: nat)
    requires Fits(poly, w) && r < Pow2(w) && t < Pow2(w)
    requires Bits(poly, r, n) == Bits(poly, t, n)
    ensures r == t
  {
    if n > 0 {
      BitsBelow(poly, r, n - 1, w);
      BitsBelow(poly, t, n - 1, w);
      BitInjective(poly, Bits(poly, r, n - 1), Bits(poly, t, n - 1), w);
      BitsInjective(poly, r, t, n - 1, w);
    }
  }

  /** Different registers stay different over any common suffix. */
  lemma {:induction false} FeedInjective(poly: nat, r: nat, t: nat, data: seq<byte>, w: nat)
    requires Fits(poly, w) && r < Pow2(w) && t < Pow2(w)
    requires Feed(poly, r, data) == Feed(poly, t, data)
    ensures r == t
  {
    if data != [] {
      var init, b := data[..|data| - 1], data[|data| - 1];
      var x, y := Feed(poly, r, init), Feed(poly, t, init);
      FeedWithin(poly, r, init, w);
      FeedWithin(poly, t, init, w);
      ByteFits(b, w);
      XorBelow(x, b, w);
      XorBelow(y, b, w);
      BitsInjective(poly, Xor(x, b), Xor(y, b), 8, w);
      XorCancel(x, y, b);
      FeedInjective(poly, r, t, init, w);
    }
  }

  lemma {:induction false} FeedAppend(poly: nat, r: nat, a: seq<byte>, b: seq<byte>)
    ensures Feed(poly, r, a + b) == Feed(poly, Feed(poly, r, a), b)
  {
    if b == [] {
      assert a + b == a;
    } else {
      FeedAppend(poly, r, a, b[..|b| - 1]);
      assert (a + b)[..|a + b| - 1] == a + b[..|b| - 1];
    }
  }

  lemma {:induction false} ByteChangeFeeds(poly: nat, r: nat, pre: seq<byte>, x: byte, y: byte, post: seq<byte>, w: nat)
    requires Fits(poly, w) && r < Pow2(w) && x != y
    ensures Feed(poly, r, pre + [x] + post) != Feed(poly, r, pre + [y] + post)
  {
    var p := Feed(poly, r, pre);
    FeedWithin(poly, r, pre, w);
    ByteFits(x, w);
    ByteFits(y, w);
    XorBelow(p, x, w);
    XorBelow(p, y, w);
    FeedAppend(poly, r, pre, [x]);
    FeedAppend(poly, r, pre, [y]);
    assert Feed(poly, p, [x]) == Bits(poly, Xor(p, x), 8);
    assert Feed(poly, p, [y]) == Bits(poly, Xor(p, y), 8);
    if Bits(poly, Xor(p, x), 8) == Bits(poly, Xor(p, y), 8) {
      BitsInjective(poly, Xor(p, x), Xor(p, y), 8, w);
      XorCommutes(p, x);
      XorCommutes(p, y);
      XorCancel(x, y, p);
    }
    BitsBelow(poly, Xor(p, x), 8, w);
    BitsBelow(poly, Xor(p, y), 8, w);
    FeedAppend(poly, r, pre + [x], post);
    FeedAppend(poly, r, pre + [y], post);
    if Feed(poly, r, pre + [x] + post) == Feed(poly, r, pre + [y] + post) {
      FeedInjective(poly, Feed(poly, p, [x]), Feed(poly, p, [y]), post, w);
    }
  }

  /** Two messages of the same length that differ in exactly one byte. */
  ghost predicate OneByteApart(a: seq<byte>, b: seq<byte>, i: nat) {
    |a| == |b| && i < |a| && a[i] != b[i] && forall j | 0 <= j < |a| && j != i :: a[j] == b[j]
  }

  lemma Crc32DetectsByte(a: seq<byte>, b: seq<byte>, i: nat)
    requires OneByteApart(a, b, i)
    ensures Crc32(a) != Crc32(b)
  {
    FitsBoth();
    Pow2Values();
    assert a == a[..i] + [a[i]] + a[i + 1..];
    assert b == a[..i] + [b[i]] + a[i + 1..];
    ByteChangeFeeds(POLY32, 0xFFFF_FFFF, a[..i], a[i], b[i], a[i + 1..], 32);
  }

  lemma Crc16DetectsByte(a: seq<byte>, b: seq<byte>, i: nat)
    requires OneByteApart(a, b, i)
    ensures Crc16(a) != Crc16(b)
  {
    FitsBoth();
    Pow2Values();
    assert a == a[..i] + [a[i]] + a[i + 1..];
    assert b == a[..i] + [b[i]] + a[i + 1..];
    ByteChangeFeeds(POLY16, 0xFFFF, a[..i], a[i], b[i], a[i + 1..], 16);
  }

  // ---- Which two CRCs ----

  /** Zero bits are shifted out unchanged. */
  lemma {:induction false} ZeroBits(poly: nat, h: nat, n: nat)
    ensures Bits(poly, h * Pow2(n), n) == h
    decreases n
  {
    hide Bit, Xor;
    if n > 0 {
      ZeroBits(poly, 2 * h, n - 1);
      Regrouped(h, Pow2(n - 1));
      EvenBit(poly, h);
    }
  }

  lemma Regrouped(h: nat, p: nat)
    ensures (2 * h) * p == h * (2 * p)
  {
  }

  lemma EvenBit(poly: nat, h: nat)
    ensures Bit(poly, 2 * h) == h
  {
  }

  lemma {:induction false} XorOnes(h: nat, k: nat)
    ensures Xor(h * Pow2(k) + Pow2(k) - 1, Pow2(k) - 1) == h * Pow2(k)
  {
    hide Xor;
    if k == 0 {
      XorZero(h);
    } else {
      XorOnes(h, k - 1);
      XorOdd(h * Pow2(k - 1) + Pow2(k - 1) - 1, Pow2(k - 1) - 1);
      assert h * Pow2(k) == 2 * (h * Pow2(k - 1));
    }
  }

  lemma {:induction false} XorZero(h: nat)
    ensures Xor(h, 0) == h
  {
  }

  lemma XorOdd(c: nat, d: nat)
    ensures Xor(2 * c + 1, 2 * d + 1) == 2 * Xor(c, d)
  {
    XorStep(2 * c + 1, 2 * d + 1);
    assert (2 * c + 1) / 2 == c && (2 * d + 1) / 2 == d;
  }

  /** A byte of ones cancels eight ones of the register. */
  lemma OnesFed(poly: nat, h: nat)
    ensures Bits(poly, Xor(0x100 * h + 0xFF, 0xFF), 8) == h
  {
    Pow2Values();
    XorOnes(h, 8);
    ZeroBits(poly, h, 8);
  }

  /** A lone bit becomes the polynomial when it leaves the register. */
  lemma {:induction false} LoneBit(poly: nat)
    ensures Bits(poly, Xor(0, 0x80), 8) == poly
  {
    assert Pow2(7) == 0x80;
    ZeroBits(poly, 1, 7);
  }

  lemma {:induction false} FeedOne(poly: nat, r: nat, data: seq<byte>, b: byte)
    ensures Feed(poly, r, data + [b]) == Bits(poly, Xor(Feed(poly, r, data), b), 8)
  {
    assert (data + [b])[..|data|] == data;
  }

  /** A register of 8n ones is cleared by n bytes of ones. */
  lemma {:induction false} OnesClear(poly: nat, n: nat)
    ensures Feed(poly, Pow2(8 * n) - 1, Fill(n, 0xFF)) == 0
  {
    OnesShift(poly, n, n);
    assert Pow2(0) - 1 == 0;
  }

  lemma {:induction false} OnesShift(poly: nat, n: nat, k: nat)
    requires k <= n
    ensures Feed(poly, Pow2(8 * n) - 1, Fill(k, 0xFF)) == Pow2(8 * (n - k)) - 1
  {
    hide Bits, Xor;
    if k == 0 {
      assert Fill(k, 0xFF as byte) == [];
    } else {
      OnesShift(poly, n, k - 1);
      var h := Pow2(8 * (n - k)) - 1;
      EightMore(8 * (n - k));
      assert Fill(k, 0xFF as byte) == Fill(k - 1, 0xFF as byte) + [0xFF];
      FeedOne(poly, Pow2(8 * n) - 1, Fill(k - 1, 0xFF), 0xFF);
      OnesFed(poly, h);
    }
  }

  lemma EightMore(k: nat)
    ensures Pow2(k + 8) == 0x100 * Pow2(k)
  {
    assert Pow2(k + 2) == 4 * Pow2(k);
    assert Pow2(k + 4) == 4 * Pow2(k + 2);
    assert Pow2(k + 6) == 4 * Pow2(k + 4);
  }

  /** The reflected CRC-32 of polynomial EDB88320, complemented, and the CRC-16 of A001, both started from ones. */
  lemma KnownAnswers()
    ensures Crc32(Fill(4, 0xFF) + [0x80]) == 0x1247_7CDF && Crc32([]) == 0
    ensures Crc16(Fill(2, 0xFF) + [0x80]) == 0xA001 && Crc16([]) == 0xFFFF
  {
    hide Bits, Xor;
    Pow2Values();
    OnesClear(0xEDB8_8320, 4);
    OnesClear(0xA001, 2);
    LoneBit(0xEDB8_8320);
    LoneBit(0xA001);
    FeedOne(0xEDB8_8320, 0xFFFF_FFFF, Fill(4, 0xFF), 0x80);
    FeedOne(0xA001, 0xFFFF, Fill(2, 0xFF), 0x80);
  }

  // ---- The loops ----

  method ComputeCrc32(data: seq<byte>) returns (crc: u32)
    ensures crc == Crc32(data)
  {
    FitsBoth();
    Pow2Values();
    var r: nat := 0xFFFF_FFFF;
    for i := 0 to |data|
      invariant r == Feed(POLY32, 0xFFFF_FFFF, data[..i])
    {
      assert data[..i + 1][..i] == data[..i];
      r := Xor(r, data[i]);
      ghost var x := r;
      for b := 0 to 8
        invariant r == Bits(POLY32, x, b)
      {
        if r % 2 != 0 {
          r := Xor(r / 2, POLY32);
        } else {
          r := r / 2;
        }
      }
    }
    assert data[..|data|] == data;
    FeedBelow(POLY32, 0xFFFF_FFFF, data, 32);
    crc := 0xFFFF_FFFF - r;
  }

  method ComputeCrc16(data: seq<byte>) returns (crc: u16)
    ensures crc == Crc16(data)
  {
    FitsBoth();
    Pow2Values();
    var r: nat := 0xFFFF;
    for i := 0 to |data|
      invariant r == Feed(POLY16, 0xFFFF, data[..i])
    {
      assert data[..i + 1][..i] == data[..i];
      r := Xor(r, data[i]);
      ghost var x := r;
      for b := 0 to 8
        invariant r == Bits(POLY16, x, b)
      {
        if r % 2 != 0 {
          r := Xor(r / 2, POLY16);
        } else {
          r := r / 2;
        }
      }
    }
    assert data[..|data|] == data;
    FeedBelow(POLY16, 0xFFFF, data, 16);
    crc := r;
  }
}
