/** Machine integers, the two bitwise operators the firmware relies on, and little-endian words. */
module Bytes {
  type byte = x: int | 0 <= x < 0x100
  type u16 = x: int | 0 <= x < 0x1_0000
  type u32 = x: int | 0 <= x < 0x1_0000_0000

  const ERASED: byte := 0xFF

  datatype Option<+T> = None | Some(value: T)

  function Pow2(k: nat): (p: nat)
    ensures p >= 1
  {
    if k == 0 then 1 else 2 * Pow2(k - 1)
  }

  lemma Pow2Values()
    ensures Pow2(8) == 0x100 && Pow2(16) == 0x1_0000 && Pow2(17) == 0x2_0000 && Pow2(10) == 0x400
    ensures Pow2(15) == 0x8000 && Pow2(31) == 0x8000_0000 && Pow2(32) == 0x1_0000_0000
  {
    assert Pow2(4) == 16;
    assert Pow2(8) == 0x100;
    assert Pow2(12) == 0x1000;
    assert Pow2(16) == 0x1_0000;
    assert Pow2(20) == 0x10_0000;
    assert Pow2(24) == 0x100_0000;
    assert Pow2(28) == 0x1000_0000;
  }

  // ---- Bitwise AND: what NOR flash does when a cell is programmed ----

  function And(a: nat, b: nat): (r: nat)
    ensures r <= a && r <= b
  {
    if a == 0 || b == 0 then 0
    else 2 * And(a / 2, b / 2) + (if a % 2 == 1 && b % 2 == 1 then 1 else 0)
  }

  lemma {:induction false} AndOnes(v: nat, k: nat)
    requires v < Pow2(k)
    ensures And(Pow2(k) - 1, v) == v
  {
    if k > 0 {
      AndOnes(v / 2, k - 1);
      assert (Pow2(k) - 1) / 2 == Pow2(k - 1) - 1;
    }
  }

  lemma {:induction false} AndSelf(v: nat)
    ensures And(v, v) == v
  {
    if v > 0 { AndSelf(v / 2); }
  }

  /** A cleared cell stays at the value it was programmed with. */
  lemma {:induction false} AndAgain(a: nat, v: nat)
    ensures And(And(a, v), v) == And(a, v)
  {
    if a > 0 && v > 0 { AndAgain(a / 2, v / 2); }
  }

  lemma {:induction false} AndCommutes(a: nat, b: nat)
    ensures And(a, b) == And(b, a)
  {
    if a > 0 && b > 0 { AndCommutes(a / 2, b / 2); }
  }

  lemma {:induction false} AndErased(v: byte)
    ensures And(ERASED, v) == v
  {
    Pow2Values();
    AndOnes(v, 8);
  }

  function Shl(a: nat, k: nat): nat {
    if k == 0 then a else 2 * Shl(a, k - 1)
  }

  function Shr(a: nat, k: nat): nat {
    if k == 0 then a else Shr(a / 2, k - 1)
  }

  lemma {:induction false} AndShift(a: nat, b: nat, k: nat)
    ensures And(a, Shl(b, k)) == Shl(And(Shr(a, k), b), k)
  {
    if k > 0 {
      AndShift(a / 2, b, k - 1);
      AndDouble(a, Shl(b, k - 1));
    }
  }

  lemma {:induction false} AndDouble(a: nat, b: nat)
    ensures And(a, 2 * b) == 2 * And(a / 2, b)
  {
    var c := 2 * b;
    assert c / 2 == b && c % 2 == 0;
    if a > 0 && b > 0 {
      assert And(a, c) == 2 * And(a / 2, c / 2);
    }
  }

  lemma {:induction false} ShrOf(a: nat, c: nat, k: nat)
    requires Shl(c, k) <= a < Shl(c + 1, k)
    ensures Shr(a, k) == c
  {
    if k > 0 { ShrOf(a / 2, c, k - 1); }
  }

  lemma {:induction false} ShlTimes(a: nat, k: nat)
    ensures Shl(a, k) == a * Pow2(k)
  {
    if k > 0 { ShlTimes(a, k - 1); }
  }

  lemma {:induction false} ShrDivides(a: nat, k: nat)
    ensures Shr(a, k) == a / Pow2(k)
  {
    if k > 0 {
      ShrDivides(a / 2, k - 1);
      HalfThenRest(a, Pow2(k - 1));
    }
  }

  lemma HalfThenRest(a: nat, p: nat)
    requires p > 0
    ensures a / 2 / p == a / (2 * p)
  {
    var h := a / 2;
    var q, r := h / p, h % p;
    assert h == p * q + r;
    QuotientIs(a, 2 * p, q, 2 * r + a % 2);
  }

  lemma QuotientIs(a: nat, p: nat, q: nat, r: nat)
    requires p > 0 && a == p * q + r && r < p
    ensures a / p == q && a % p == r
  {
    var d := a / p - q;
    assert p * (a / p) == p * q + p * d;
    MultipleGrows(p, d);
  }

  lemma MultipleGrows(p: nat, d: int)
    ensures d >= 1 ==> p * d >= p
    ensures d <= -1 ==> p * d + p <= 0
  {
  }

  /** The k low bits. */
  function LowBits(a: nat, k: nat): nat {
    a % Pow2(k)
  }

  /** Against k low ones every low bit survives. */
  lemma {:induction false} AndLowOnes(a: nat, b: nat, k: nat)
    ensures And(a, Shl(b, k) + Pow2(k) - 1) == Shl(And(Shr(a, k), b), k) + LowBits(a, k)
  {
    hide And, LowBits;
    if k == 0 {
      NoLowBits(a);
    } else {
      AndLowOnes(a / 2, b, k - 1);
      LowPart(a, k);
      AndStep(a, Shl(b, k - 1) + Pow2(k - 1) - 1);
    }
  }

  lemma NoLowBits(a: nat)
    ensures LowBits(a, 0) == 0
  {
  }

  /** An odd operand keeps the other's last bit. */
  lemma {:induction false} AndStep(a: nat, c: nat)
    ensures And(a, 2 * c + 1) == 2 * And(a / 2, c) + a % 2
  {
    assert (2 * c + 1) / 2 == c;
  }

  lemma LowPart(a: nat, k: nat)
    requires k > 0
    ensures LowBits(a, k) == 2 * LowBits(a / 2, k - 1) + a % 2
  {
    var p := Pow2(k - 1);
    var q, r := a / 2 / p, a / 2 % p;
    assert a / 2 == p * q + r;
    assert a == (2 * p) * q + (2 * r + a % 2);
    QuotientIs(a, 2 * p, q, 2 * r + a % 2);
  }

  // ---- Bitwise XOR: the CRC registers ----

  function Xor(a: nat, b: nat): nat {
    if a == 0 then b
    else if b == 0 then a
    else 2 * Xor(a / 2, b / 2) + (a + b) % 2
  }

  lemma {:induction false} XorStep(a: nat, b: nat)
    ensures Xor(a, b) == 2 * Xor(a / 2, b / 2) + (a + b) % 2
  {
  }

  lemma {:induction false} XorCancel(a: nat, b: nat, c: nat)
    requires Xor(a, c) == Xor(b, c)
    ensures a == b
    decreases a + b
  {
    XorStep(a, c);
    XorStep(b, c);
    if a + b > 0 { XorCancel(a / 2, b / 2, c / 2); }
  }

  lemma {:induction false} XorCommutes(a: nat, b: nat)
    ensures Xor(a, b) == Xor(b, a)
  {
    if a > 0 && b > 0 { XorCommutes(a / 2, b / 2); }
  }

  lemma {:induction false} XorBelow(a: nat, b: nat, k: nat)
    requires a < Pow2(k) && b < Pow2(k)
    ensures Xor(a, b) < Pow2(k)
  {
    if k > 0 {
      XorStep(a, b);
      XorBelow(a / 2, b / 2, k - 1);
    }
  }

  /** The top bit of one operand survives when the other has none there. */
  lemma {:induction false} XorTopBit(a: nat, b: nat, k: nat)
    requires a < Pow2(k) <= b < Pow2(k + 1)
    ensures Pow2(k) <= Xor(a, b) < Pow2(k + 1)
  {
    XorStep(a, b);
    if k > 0 {
      XorTopBit(a / 2, b / 2, k - 1);
    }
  }

  // ---- Little-endian words ----

  function ReadU16(s: seq<byte>, at: nat): u16
    requires at + 2 <= |s|
  {
    var a: int, b: int := s[at], s[at + 1];
    a + 0x100 * b
  }

  function ReadU32(s: seq<byte>, at: nat): u32
    requires at + 4 <= |s|
  {
    Join((s[at], s[at + 1], s[at + 2], s[at + 3]))
  }

  /** The four bytes of a word, low byte first. */
  function Split(w: u32): (byte, byte, byte, byte) {
    var x := w / 0x100;
    var y := x / 0x100;
    (w % 0x100, x % 0x100, y % 0x100, y / 0x100)
  }

  function Join(q: (byte, byte, byte, byte)): u32 {
    var a: int, b: int, c: int, d: int := q.0, q.1, q.2, q.3;
    a + 0x100 * (b + 0x100 * (c + 0x100 * d))
  }

  lemma JoinSplit(w: u32)
    ensures Join(Split(w)) == w
  {
  }

  lemma SplitJoin(q: (byte, byte, byte, byte))
    ensures Split(Join(q)) == q
  {
    var c: int := q.2 as int + 0x100 * q.3 as int;
    var b: int := q.1 as int + 0x100 * c;
    var w: int := q.0 as int + 0x100 * b;
    assert w % 0x100 == q.0 && w / 0x100 == b;
    assert b % 0x100 == q.1 && b / 0x100 == c;
    assert c % 0x100 == q.2 && c / 0x100 == q.3;
  }

  function Word(w: u32): (s: seq<byte>)
    ensures |s| == 4
  {
    var (a, b, c, d) := Split(w);
    [a, b, c, d]
  }

  /** Little-endian words laid out one after another, as the compiler lays out a packed struct. */
  function Words(ws: seq<u32>): (s: seq<byte>)
    ensures |s| == 4 * |ws|
  {
    if ws == [] then [] else Word(ws[0]) + Words(ws[1..])
  }

  lemma WordRead(w: u32)
    ensures ReadU32(Word(w), 0) == w
  {
    JoinSplit(w);
  }

  lemma {:induction false} WordsAt(ws: seq<u32>, i: nat)
    requires i < |ws|
    ensures Words(ws)[4 * i..4 * i + 4] == Word(ws[i])
  {
    if i > 0 {
      WordsAt(ws[1..], i - 1);
      assert Words(ws)[4 * i..4 * i + 4] == Words(ws[1..])[4 * i - 4..4 * i];
    }
  }

  lemma {:induction false} WordsRead(ws: seq<u32>, i: nat)
    requires i < |ws|
    ensures ReadU32(Words(ws), 4 * i) == ws[i]
  {
    WordsAt(ws, i);
    WordRead(ws[i]);
    ReadSlice(Words(ws), 4 * i);
  }

  lemma ReadSlice(s: seq<byte>, at: nat)
    requires at + 4 <= |s|
    ensures ReadU32(s, at) == ReadU32(s[at..at + 4], 0)
  {
  }

  lemma TakeSlice<T>(s: seq<T>, lo: nat, hi: nat, n: nat)
    requires lo <= hi <= |s| && n <= hi - lo
    ensures s[lo..hi][..n] == s[lo..lo + n]
  {
  }

  lemma SliceOfSlice<T>(s: seq<T>, lo: nat, hi: nat, a: nat, b: nat)
    requires lo <= hi <= |s| && a <= b <= hi - lo
    ensures s[lo..hi][a..b] == s[lo + a..lo + b]
  {
    var t, u := s[lo..hi][a..b], s[lo + a..lo + b];
    assert |t| == |u| && forall i | 0 <= i < |t| :: t[i] == u[i];
  }

  lemma ReadInSlice(s: seq<byte>, lo: nat, hi: nat, k: nat)
    requires lo <= hi <= |s| && k + 4 <= hi - lo
    ensures ReadU32(s[lo..hi], k) == ReadU32(s, lo + k)
  {
  }

  function ReadWords(s: seq<byte>, n: nat): (ws: seq<u32>)
    requires 4 * n <= |s|
    ensures |ws| == n
  {
    if n == 0 then [] else ReadWords(s, n - 1) + [ReadU32(s, 4 * (n - 1))]
  }

  lemma {:induction false} ReadWordsAt(s: seq<byte>, n: nat, i: nat)
    requires 4 * n <= |s| && i < n
    ensures ReadWords(s, n)[i] == ReadU32(s, 4 * i)
  {
    if i < n - 1 { ReadWordsAt(s, n - 1, i); }
  }

  lemma {:induction false} ReadWordsOfWords(ws: seq<u32>)
    ensures ReadWords(Words(ws), |ws|) == ws
  {
    forall i: nat | i < |ws| ensures ReadWords(Words(ws), |ws|)[i] == ws[i] {
      ReadWordsAt(Words(ws), |ws|, i);
      WordsRead(ws, i);
    }
  }

  lemma {:induction false} WordsOfReadWords(s: seq<byte>, n: nat)
    requires |s| == 4 * n
    ensures Words(ReadWords(s, n)) == s
  {
    var ws := ReadWords(s, n);
    forall j: nat | j < |s| ensures Words(ws)[j] == s[j] {
      var i := j / 4;
      ReadWordsAt(s, n, i);
      WordsRead(ws, i);
      ReadInjective(Words(ws), s, 4 * i);
    }
  }

  lemma {:induction false} WordsSplit(a: seq<u32>, b: seq<u32>)
    ensures Words(a + b) == Words(a) + Words(b)
  {
    if a == [] {
      assert a + b == b;
    } else {
      assert (a + b)[1..] == a[1..] + b;
      WordsSplit(a[1..], b);
    }
  }

  /** Four bytes are determined by the word they spell. */
  lemma ReadInjective(s: seq<byte>, t: seq<byte>, at: nat)
    requires at + 4 <= |s| && at + 4 <= |t|
    requires ReadU32(s, at) == ReadU32(t, at)
    ensures forall i | at <= i < at + 4 :: s[i] == t[i]
  {
    SplitJoin((s[at], s[at + 1], s[at + 2], s[at + 3]));
    SplitJoin((t[at], t[at + 1], t[at + 2], t[at + 3]));
  }

  // ---- Two halves of a word, low half first ----

  function Halves(lo: u16, hi: u16): u32 {
    lo as int + 0x1_0000 * hi as int
  }

  function Low(w: u32): u16 { w % 0x1_0000 }

  function High(w: u32): u16 { w / 0x1_0000 }

  lemma HalvesRoundTrip(lo: u16, hi: u16, w: u32)
    ensures Low(Halves(lo, hi)) == lo && High(Halves(lo, hi)) == hi
    ensures Halves(Low(w), High(w)) == w
  {
  }

  lemma HalvesAt(s: seq<byte>, at: nat, lo: u16, hi: u16)
    requires at + 4 <= |s| && ReadU32(s, at) == Halves(lo, hi)
    ensures ReadU16(s, at) == lo && ReadU16(s, at + 2) == hi
  {
    var a: int, b: int, c: int, d: int := s[at], s[at + 1], s[at + 2], s[at + 3];
    assert ReadU32(s, at) == (a + 0x100 * b) + 0x1_0000 * (c + 0x100 * d);
  }

  lemma BytesAt(s: seq<byte>, at: nat, q: (byte, byte, byte, byte))
    requires at + 4 <= |s| && ReadU32(s, at) == Join(q)
    ensures s[at] == q.0 && s[at + 1] == q.1 && s[at + 2] == q.2 && s[at + 3] == q.3
  {
    SplitJoin(q);
    SplitJoin((s[at], s[at + 1], s[at + 2], s[at + 3]));
  }

  // ---- Sequence helpers ----

  function Fill<T>(n: nat, v: T): (s: seq<T>)
    ensures |s| == n && forall i | 0 <= i < n :: s[i] == v
  {
    seq(n, _ => v)
  }

  function Blank(n: nat): (s: seq<byte>)
    ensures |s| == n && forall i | 0 <= i < n :: s[i] == ERASED
  {
    Fill(n, ERASED)
  }

  /** s with d written over it from index `at`. */
  function Splice<T>(s: seq<T>, at: nat, d: seq<T>): (r: seq<T>)
    requires at + |d| <= |s|
    ensures |r| == |s|
  {
    s[..at] + d + s[at + |d|..]
  }

  lemma SpliceAt<T>(s: seq<T>, at: nat, d: seq<T>, j: nat)
    requires at + |d| <= |s| && j < |s|
    ensures Splice(s, at, d)[j] == if at <= j < at + |d| then d[j - at] else s[j]
  {
  }
}
