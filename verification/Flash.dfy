/** Internal NOR flash: programming clears bits, erasing sets them, and either may be refused. */
module Flash {
  import opened Bytes

  const FLASH_BASE: u32 := 0x0800_0000
  const FLASH_SIZE: nat := 0x10_0000
  const META_BASE: u32 := 0x0801_0000
  const META_SIZE: nat := 0x1_0000
  const SLOT_A_BASE: u32 := 0x0802_0000
  const SLOT_B_BASE: u32 := 0x0808_0000
  const SLOT_SIZE: nat := 0x6_0000
  /** Each slot is three erase sectors of this size. */
  const SLOT_SECTOR: nat := 0x2_0000

  function Index(address: u32): int {
    address - FLASH_BASE
  }

  /** The first n bytes of d programmed into s from index `at`. */
  function Programmed(s: seq<byte>, at: int, d: seq<byte>, n: nat): (r: seq<byte>)
    requires n <= |d|
    ensures |r| == |s|
  {
    seq(|s|, i requires 0 <= i < |s| => if at <= i < at + n then And(s[i], d[i - at]) else s[i])
  }

  /** s with n bytes from index `at` erased. */
  function Wiped(s: seq<byte>, at: int, n: nat): (r: seq<byte>)
    ensures |r| == |s|
  {
    seq(|s|, i requires 0 <= i < |s| => if at <= i < at + n then ERASED else s[i])
  }

  lemma ProgramMore(s: seq<byte>, at: int, d: seq<byte>, n: nat, k: nat)
    requires n + k <= |d|
    ensures Programmed(Programmed(s, at, d, n), at + n, d[n..n + k], k) == Programmed(s, at, d, n + k)
  {
  }

  lemma ProgramBlank(s: seq<byte>, at: nat, d: seq<byte>, n: nat)
    requires n <= |d| && at + |d| <= |s|
    requires forall i | at <= i < at + |d| :: s[i] == ERASED
    ensures Programmed(s, at, d, n) == Splice(s, at, d[..n])
  {
    forall v: byte ensures And(ERASED, v) == v { AndErased(v); }
  }

  /** A completed write is a plain byte copy exactly when no cell lacked a bit the data needs. */
  predicate Copies(s: seq<byte>, at: int, d: seq<byte>) {
    forall i | 0 <= i < |d| :: 0 <= at + i < |s| && And(s[at + i], d[i]) == d[i]
  }

  lemma CopyIsSplice(s: seq<byte>, at: nat, d: seq<byte>)
    requires at + |d| <= |s|
    ensures Copies(s, at, d) <==> Programmed(s, at, d, |d|) == Splice(s, at, d)
  {
    var p, q := Programmed(s, at, d, |d|), Splice(s, at, d);
    forall j | 0 <= j < |s|
      ensures p[j] == if at <= j < at + |d| then And(s[j], d[j - at]) else s[j]
      ensures q[j] == if at <= j < at + |d| then d[j - at] else s[j]
    {
      SpliceAt(s, at, d, j);
    }
    if p == q {
      forall i | 0 <= i < |d| ensures And(s[at + i], d[i]) == d[i] {
        assert p[at + i] == q[at + i];
      }
    }
  }

  /** A write of the same data over a partly finished one completes it. */
  lemma RewriteCompletes(s: seq<byte>, at: int, d: seq<byte>, n: nat)
    requires n <= |d|
    ensures Programmed(Programmed(s, at, d, n), at, d, |d|) == Programmed(s, at, d, |d|)
  {
    forall a: nat, v: nat ensures And(And(a, v), v) == And(a, v) { AndAgain(a, v); }
  }

  /** Whether a write of d at index `at`, stopped after n bytes, reports success. */
  predicate WriteReports(s: seq<byte>, at: int, d: seq<byte>, n: nat)
    requires n <= |d|
  {
    |d| > 0 && n == |d| && Copies(s, at, d)
  }

  lemma WriteFits(s: seq<byte>, at: int, d: seq<byte>, n: nat)
    requires n <= |d| && WriteReports(s, at, d, n)
    ensures 0 <= at && at + |d| <= |s|
  {
    var first, last := d[0], d[|d| - 1];
    assert 0 <= at + 0 && at + (|d| - 1) < |s|;
  }

  class Chip {
    const mem: array<byte>

    predicate Valid() {
      mem.Length == FLASH_SIZE
    }

    constructor (image: seq<byte>)
      requires |image| == FLASH_SIZE
      ensures Valid() && fresh(mem) && mem[..] == image
    {
      mem := new byte[FLASH_SIZE](i requires 0 <= i < FLASH_SIZE => image[i]);
      new;
      assert mem[..] == image;
    }

    /** One byte program: done, or refused with the cell unchanged. */
    method ProgramByte(address: u32, v: byte) returns (ok: bool)
      requires Valid()
      modifies mem
      ensures ok ==> 0 <= Index(address) < FLASH_SIZE
      ensures mem[..] == Programmed(old(mem[..]), Index(address), [v], if ok then 1 else 0)
    {
      ok := *;
      if Index(address) < 0 || Index(address) >= FLASH_SIZE {
        ok := false;
      }
      if ok {
        mem[Index(address)] := And(mem[Index(address)], v);
      }
    }

    /** One word program, low byte at the low address: done, or refused with the cells unchanged. */
    method ProgramWord(address: u32, w: u32) returns (ok: bool)
      requires Valid() && address % 4 == 0
      modifies mem
      ensures ok ==> 0 <= Index(address) && Index(address) + 4 <= FLASH_SIZE
      ensures mem[..] == Programmed(old(mem[..]), Index(address), Word(w), if ok then 4 else 0)
    {
      ok := *;
      var i := Index(address);
      if i < 0 || i + 4 > FLASH_SIZE {
        ok := false;
      }
      if ok {
        var d := Word(w);
        mem[i], mem[i + 1], mem[i + 2], mem[i + 3] :=
          And(mem[i], d[0]), And(mem[i + 1], d[1]), And(mem[i + 2], d[2]), And(mem[i + 3], d[3]);
      }
    }

    /** Erase `count` sectors of `size` bytes in order, stopping at the first that is refused. */
    method EraseSectors(at: nat, size: nat, count: nat) returns (ok: bool, ghost done: nat)
      requires Valid() && at + size * count <= FLASH_SIZE
      modifies mem
      ensures done <= count && ok == (done == count)
      ensures mem[..] == Wiped(old(mem[..]), at, size * done)
    {
      var k := 0;
      done := 0;
      while k < count
        invariant k <= count && done == k
        invariant mem[..] == Wiped(old(mem[..]), at, size * k)
      {
        ok := *;
        if !ok { return false, k; }
        assert size * k + size == size * (k + 1) <= size * count;
        forall i | at + size * k <= i < at + size * k + size {
          mem[i] := ERASED;
        }
        k := k + 1;
        done := k;
      }
      ok := true;
    }

    /** Erases a slot; `done` of its three sectors were erased. */
    method EraseSlot(slotBase: u32) returns (ok: bool, ghost done: nat)
      requires Valid()
      modifies mem
      ensures done <= 3 && ok == (IsSlotBase(slotBase) && done == 3)
      ensures !IsSlotBase(slotBase) ==> done == 0
      ensures mem[..] == Wiped(old(mem[..]), Index(slotBase), SLOT_SECTOR * done)
    {
      if !IsSlotBase(slotBase) {
        return false, 0;
      }
      ok, done := EraseSectors(Index(slotBase), SLOT_SECTOR, 3);
    }

    /** Programs data[i] in its place, after data[..i] has been. */
    method ProgramNextByte(address: u32, data: seq<byte>, i: nat, ghost was: seq<byte>) returns (ok: bool)
      requires Valid() && i < |data| && address + |data| < 0x1_0000_0000
      requires mem[..] == Programmed(was, Index(address), data, i)
      modifies mem
      ensures ok ==> 0 <= Index(address) + i < FLASH_SIZE
      ensures mem[..] == Programmed(was, Index(address), data, if ok then i + 1 else i)
    {
      ok := ProgramByte(address + i, data[i]);
      ProgramMore(was, Index(address), data, i, 1);
    }

    /** Packs four bytes into a word and programs them in their place, after data[..i] has been. */
    method ProgramNextWord(address: u32, data: seq<byte>, i: nat, ghost was: seq<byte>) returns (ok: bool)
      requires Valid() && i + 4 <= |data| && address + |data| < 0x1_0000_0000 && (address + i) % 4 == 0
      requires mem[..] == Programmed(was, Index(address), data, i)
      modifies mem
      ensures ok ==> 0 <= Index(address) + i && Index(address) + i + 4 <= FLASH_SIZE
      ensures mem[..] == Programmed(was, Index(address), data, if ok then i + 4 else i)
    {
      var word := Join((data[i], data[i + 1], data[i + 2], data[i + 3]));
      PackedWord(data, i);
      ok := ProgramWord(address + i, word);
      ProgramMore(was, Index(address), data, i, 4);
    }

    /** Byte head up to a word boundary, word body, byte tail, then read-back; n bytes were programmed. */
    method Write(address: u32, data: seq<byte>) returns (ok: bool, ghost n: nat)
      requires Valid() && address + |data| < 0x1_0000_0000
      modifies mem
      ensures n <= |data|
      ensures mem[..] == Programmed(old(mem[..]), Index(address), data, n)
      ensures ok == WriteReports(old(mem[..]), Index(address), data, n)
    {
      if |data| == 0 {
        return false, 0;
      }
      var cur, remain := 0, |data|;
      ghost var was, at := mem[..], Index(address);
      while remain > 0 && (address + cur) % 4 != 0
        invariant 0 <= cur && 0 <= remain && cur + remain == |data|
        invariant cur > 0 ==> 0 <= at && at + cur <= FLASH_SIZE
        invariant mem[..] == Programmed(was, at, data, cur)
        decreases remain
      {
        ok := ProgramNextByte(address, data, cur, was);
        if !ok { return false, cur; }
        cur, remain := cur + 1, remain - 1;
      }
      while remain >= 4
        invariant 0 <= cur && 0 <= remain && cur + remain == |data|
        invariant remain >= 4 ==> (address + cur) % 4 == 0
        invariant cur > 0 ==> 0 <= at && at + cur <= FLASH_SIZE
        invariant mem[..] == Programmed(was, at, data, cur)
        decreases remain
      {
        ok := ProgramNextWord(address, data, cur, was);
        if !ok { return false, cur; }
        cur, remain := cur + 4, remain - 4;
      }
      while remain > 0
        invariant 0 <= cur && 0 <= remain && cur + remain == |data|
        invariant cur > 0 ==> 0 <= at && at + cur <= FLASH_SIZE
        invariant mem[..] == Programmed(was, at, data, cur)
        decreases remain
      {
        ok := ProgramNextByte(address, data, cur, was);
        if !ok { return false, cur; }
        cur, remain := cur + 1, remain - 1;
      }
      n := |data|;
      ok := ReadBack(address, data);
      ProgrammedRange(was, at, data);
    }

    method ReadBack(address: u32, data: seq<byte>) returns (same: bool)
      requires Valid() && 0 <= Index(address) && Index(address) + |data| <= FLASH_SIZE
      ensures same <==> mem[Index(address)..Index(address) + |data|] == data
    {
      var cur, remain := 0, |data|;
      while remain > 0
        invariant 0 <= cur <= |data| && cur + remain == |data|
        invariant forall i | 0 <= i < cur :: mem[Index(address) + i] == data[i]
        decreases remain
      {
        if mem[Index(address) + cur] != data[cur] {
          assert mem[Index(address)..Index(address) + |data|][cur] != data[cur];
          return false;
        }
        cur, remain := cur + 1, remain - 1;
      }
      same := true;
    }
  }

  lemma ProgrammedRange(s: seq<byte>, at: nat, d: seq<byte>)
    requires at + |d| <= |s|
    ensures Programmed(s, at, d, |d|)[at..at + |d|] == d <==> Copies(s, at, d)
  {
    var p := Programmed(s, at, d, |d|)[at..at + |d|];
    assert forall i | 0 <= i < |d| :: p[i] == And(s[at + i], d[i]);
  }

  lemma PackedWord(d: seq<byte>, i: nat)
    requires i + 4 <= |d|
    ensures Word(Join((d[i], d[i + 1], d[i + 2], d[i + 3]))) == d[i..i + 4]
  {
    SplitJoin((d[i], d[i + 1], d[i + 2], d[i + 3]));
  }

  predicate IsSlotBase(base: u32) {
    base == SLOT_A_BASE || base == SLOT_B_BASE
  }

  /** What a successful write promises: the data is there, nothing else moved. */
  lemma WriteIsCopy(s: seq<byte>, at: nat, d: seq<byte>, n: nat)
    requires n <= |d| && at + |d| <= |s| && WriteReports(s, at, d, n)
    ensures Programmed(s, at, d, n) == Splice(s, at, d)
  {
    CopyIsSplice(s, at, d);
  }
}
