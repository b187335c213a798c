/** What appending does to the metadata log: atomicity under a power cut, and serial numbers across wrap-around. */
module MetaHistory {
  import opened Bytes
  import opened MetaRecord
  import opened MetaLog

  // ---- One append ----

  lemma {:induction false} FirstFreeIs(es: Log, i: nat, n: nat)
    requires i <= n <= |es|
    requires forall j | i <= j < n :: !es[j].Free?
    requires n < |es| ==> es[n].Free?
    ensures FirstFree(es, i) == n
    decreases n - i
  {
    if i < n { FirstFreeIs(es, i + 1, n); }
  }

  lemma {:induction false} BestPrefix(es: Log, t: Log, n: nat)
    requires n <= |es| && n <= |t| && es[..n] == t[..n]
    ensures Best(es, n) == Best(t, n)
  {
    if n > 0 {
      assert es[..n - 1] == es[..n][..n - 1] == t[..n - 1];
      BestPrefix(es, t, n - 1);
      assert es[n - 1] == es[..n][n - 1] == t[n - 1];
      var b := Best(es, n - 1);
      assert b.Some? ==> es[b.value] == es[..n][b.value] == t[b.value];
    }
  }

  /** What the scan yields once w has been appended behind the record it used to yield. */
  function Supersede(held: Option<Meta>, w: Meta): Option<Meta> {
    if held.None? || Newer(w.seqNo, held.value.seqNo) then Some(w) else held
  }

  lemma AppendEntry(es: Log, e: Entry)
    requires HoleFree(es) && Used(es) < |es| && !e.Free?
    ensures var t := es[Used(es) := e];
            && HoleFree(t) && Used(t) == Used(es) + 1
            && Latest(t) == Pick(Latest(es), t, Used(es))
            && Stored(t) == (if e.Good? then Supersede(Stored(es), e.meta) else Stored(es))
  {
    var u := Used(es);
    var t := es[u := e];
    FirstFreeIs(t, 0, u + 1);
    assert t[..u] == es[..u];
    BestPrefix(es, t, u);
  }

  /** A log holding a single record. */
  lemma Compacted(n: nat, e: Entry)
    requires n > 0
    ensures var t := Fill(n, Free)[0 := e];
            && HoleFree(t) && Used(t) == (if e.Free? then 0 else 1)
            && Stored(t) == (if e.Good? then Some(e.meta) else None)
  {
    var t := Fill(n, Free)[0 := e];
    if e.Free? {
      FirstFreeIs(t, 0, 0);
    } else {
      FirstFreeIs(t, 0, 1);
      assert Best(t, 0) == None;
      assert Best(t, 1) == Pick(None, t, 0);
    }
  }

  lemma TornCases(w: Meta, n: nat)
    requires Valid(w) && n <= RECORD_SIZE
    ensures TornEntry(w, n).Free? <==> n == 0
    ensures n == RECORD_SIZE ==> TornEntry(w, n) == Good(w)
    ensures TornEntry(w, n).Good? ==> TornEntry(w, n) == Good(w) || Collides(w, n)
  {
    HeadBytes(w);
    assert Encode(w)[0] == Encode(w)[..6][0];
    if n > 0 {
      assert Torn(w, n)[0] == 0x41;
    }
    DecodeEncode(w);
    assert Torn(w, RECORD_SIZE) == Encode(w);
    TornValidIff(w, n);
  }

  // ---- Atomicity ----

  /** Record bytes programmed by a commit during which `ops` flash operations succeed. */
  function CutAt(es: Log, ops: nat): (n: nat)
    ensures n <= RECORD_SIZE
  {
    if Used(es) < |es| then Min(ops, RECORD_SIZE) else if ops == 0 then 0 else Min(ops - 1, RECORD_SIZE)
  }

  /** The log once the slot being written has become e. */
  function After(es: Log, e: Entry, ops: nat): (t: Log)
    requires |es| == RECORDS
    ensures |t| == RECORDS
  {
    if Used(es) < RECORDS then es[Used(es) := e] else if ops == 0 then es else Fill(RECORDS, Free)[0 := e]
  }

  /** A commit leaves one entry: free if nothing was programmed, w if everything was, else junk barring a collision. */
  lemma CutEntry(es: Log, w: Meta, ops: nat) returns (e: Entry)
    requires |es| == RECORDS && Valid(w)
    ensures LogAfter(es, w, ops) == After(es, e, ops) && e == TornEntry(w, CutAt(es, ops))
    ensures e.Free? <==> CutAt(es, ops) == 0
    ensures CutAt(es, ops) == RECORD_SIZE ==> e == Good(w)
    ensures e.Good? ==> e == Good(w) || Collides(w, CutAt(es, ops))
  {
    e := TornEntry(w, CutAt(es, ops));
    TornCases(w, CutAt(es, ops));
  }

  lemma AfterEntry(es: Log, e: Entry, ops: nat)
    requires |es| == RECORDS && HoleFree(es) && (e.Free? <==> CutAt(es, ops) == 0)
    ensures var t := After(es, e, ops);
            && HoleFree(t)
            && (Used(es) < RECORDS && e.Free? ==> t == es)
            && (Used(es) < RECORDS && !e.Free? ==> Used(t) == Used(es) + 1)
            && (Used(es) == RECORDS && ops > 0 ==> Used(t) == if e.Free? then 0 else 1)
            && Stored(t) == (if Used(es) == RECORDS && ops > 0
                             then (if e.Good? then Some(e.meta) else None)
                             else (if e.Good? then Supersede(Stored(es), e.meta) else Stored(es)))
  {
    if Used(es) < RECORDS {
      if e.Free? {
        assert es[Used(es) := e] == es;
      } else {
        AppendEntry(es, e);
      }
    } else if ops > 0 {
      Compacted(RECORDS, e);
    }
  }

  /**
   * Appending is atomic: wherever power is lost, loading yields the metadata of before or of a finished commit.
   * The only exception is a torn record whose blank tail collides with an erased checksum.
   */
  lemma AppendAtomic(es: Log, w: Meta, ops: nat)
    requires |es| == RECORDS && HoleFree(es) && Used(es) < RECORDS && Valid(w)
    requires !Collides(w, CutAt(es, ops))
    ensures Stored(LogAfter(es, w, ops)) in {Stored(es), Supersede(Stored(es), w)}
    ensures HoleFree(LogAfter(es, w, ops))
    ensures Used(LogAfter(es, w, ops)) == Used(es) + (if ops == 0 then 0 else 1)
  {
    var e := CutEntry(es, w, ops);
    AfterEntry(es, e, ops);
  }

  /** A finished commit: the scan takes the new record if it is newer, or if the sector was rewritten. */
  lemma CommitDone(es: Log, w: Meta, ops: nat)
    requires |es| == RECORDS && HoleFree(es) && Valid(w) && ops >= CommitOps(es)
    ensures var t := LogAfter(es, w, ops);
            && HoleFree(t)
            && Used(t) == (if Used(es) < RECORDS then Used(es) + 1 else 1)
            && t == After(es, Good(w), ops)
            && Stored(t) == (if Used(es) < RECORDS then Supersede(Stored(es), w) else Some(w))
  {
    var e := CutEntry(es, w, ops);
    AfterEntry(es, e, ops);
  }

  /** An erased and not yet rewritten sector holds no metadata. */
  lemma CompactionTears(es: Log, w: Meta)
    requires |es| == RECORDS && HoleFree(es) && Used(es) == RECORDS && Valid(w)
    ensures Stored(LogAfter(es, w, 1)) == None
  {
    var e := CutEntry(es, w, 1);
    AfterEntry(es, e, 1);
  }

  /**
   * A commit is atomic at every cut exactly when the sector still has a free slot:
   * a cut between the erase and the rewrite of a full sector loses the metadata.
   */
  lemma CommitAtomicIffSlotFree(es: Log, w: Meta)
    requires |es| == RECORDS && HoleFree(es) && Stored(es).Some? && Valid(w)
    requires forall n: nat | n <= RECORD_SIZE :: !Collides(w, n)
    ensures Used(es) < RECORDS <==>
            forall ops: nat :: Stored(LogAfter(es, w, ops)) in {Stored(es), Stored(LogAfter(es, w, CommitOps(es)))}
  {
    CommitDone(es, w, CommitOps(es));
    if Used(es) < RECORDS {
      forall ops: nat ensures Stored(LogAfter(es, w, ops)) in {Stored(es), Stored(LogAfter(es, w, CommitOps(es)))} {
        AppendAtomic(es, w, ops);
      }
    } else {
      CompactionTears(es, w);
    }
  }

  // ---- Serial numbers ----

  /** Each valid record carries the low sixteen bits of its unbounded commit number. */
  ghost predicate Numbered(es: Log, nums: seq<nat>) {
    |nums| == |es| && forall i | 0 <= i < |es| && es[i].Good? :: es[i].meta.seqNo == nums[i] % 0x1_0000
  }

  /** All commit numbers present lie within half the serial number space. */
  ghost predicate Window(es: Log, nums: seq<nat>)
    requires |nums| == |es|
  {
    forall i, j | 0 <= i < |es| && 0 <= j < |es| && es[i].Good? && es[j].Good? :: nums[i] < nums[j] + 0x8000
  }

  lemma NewerIsGreater(x: nat, y: nat)
    requires x < y + 0x8000 && y < x + 0x8000
    ensures Newer(x % 0x1_0000, y % 0x1_0000) <==> x > y
  {
    var d := (x % 0x1_0000 - y % 0x1_0000) % 0x1_0000;
    if x >= y {
      DeltaMod(x, y);
    } else {
      DeltaMod(y, x);
    }
  }

  lemma DeltaMod(x: nat, y: nat)
    requires y <= x < y + 0x8000
    ensures (x % 0x1_0000 - y % 0x1_0000) % 0x1_0000 == x - y
    ensures x > y ==> (y % 0x1_0000 - x % 0x1_0000) % 0x1_0000 == 0x1_0000 - (x - y)
  {
    var qx, qy := x / 0x1_0000, y / 0x1_0000;
    assert x - y == (qx - qy) * 0x1_0000 + (x % 0x1_0000 - y % 0x1_0000);
  }

  /** j is the first valid record among the first n that carries the greatest commit number there. */
  ghost predicate FirstGreatest(es: Log, nums: seq<nat>, n: nat, j: nat)
    requires |nums| == |es| && n <= |es|
  {
    && j < n && es[j].Good?
    && (forall i | 0 <= i < n && es[i].Good? :: nums[i] <= nums[j])
    && (forall i | 0 <= i < j && es[i].Good? :: nums[i] < nums[j])
  }

  lemma {:induction false} BestIsFirstGreatest(es: Log, nums: seq<nat>, n: nat)
    requires n <= |es| && Numbered(es, nums) && Window(es, nums)
    ensures Best(es, n).Some? ==> FirstGreatest(es, nums, n, Best(es, n).value)
  {
    if n > 0 {
      BestIsFirstGreatest(es, nums, n - 1);
      var b := Best(es, n - 1);
      if es[n - 1].Good? && b.Some? {
        NewerIsGreater(nums[n - 1], nums[b.value]);
      }
    }
  }

  /**
   * Despite 16-bit wrap-around the scan returns the earliest record that carries the greatest commit number,
   * and finds nothing only when no record is valid.
   */
  lemma ScanFindsGreatest(es: Log, nums: seq<nat>, j: nat)
    requires Numbered(es, nums) && Window(es, nums)
    ensures Latest(es) == Some(j) <==> FirstGreatest(es, nums, Used(es), j)
  {
    BestIsFirstGreatest(es, nums, Used(es));
  }

  /** Commit numbers start at lo and gain at most two per record slot. */
  ghost predicate Paced(es: Log, nums: seq<nat>, lo: nat) {
    && Numbered(es, nums)
    && forall i | 0 <= i < Used(es) && es[i].Good? :: lo <= nums[i] <= lo + 2 * i
  }

  /** Only slots in use are numbered. */
  lemma PacedWindow(es: Log, nums: seq<nat>, lo: nat)
    requires |es| == RECORDS && HoleFree(es) && Paced(es, nums, lo)
    ensures Window(es, nums)
  {
  }

  function Plus(seqNo: u16, d: nat): u16 {
    (seqNo + d) % 0x1_0000
  }

  /** The serial number a commit stores: at most two above the one the scan holds, wrapping at sixteen bits. */
  predicate Follows(held: Option<Meta>, seqNo: u16) {
    held.Some? ==> seqNo in {Plus(held.value.seqNo, 0), Plus(held.value.seqNo, 1), Plus(held.value.seqNo, 2)}
  }

  lemma PlusWraps(x: nat, d: nat)
    ensures Plus(x % 0x1_0000, d) == (x + d) % 0x1_0000
  {
  }

  lemma NumberNext(es: Log, nums: seq<nat>, lo: nat, e: Entry, next: nat)
    requires HoleFree(es) && Used(es) < |es| && Paced(es, nums, lo) && !e.Free?
    requires e.Good? ==> e.meta.seqNo == next % 0x1_0000 && lo <= next <= lo + 2 * Used(es)
    ensures Paced(es[Used(es) := e], nums[Used(es) := next], lo)
  {
    AppendEntry(es, e);
  }

  /** The number of a commit: the least from the held one on, or from `top` on, that ends in its serial number. */
  function NextNumber(es: Log, nums: seq<nat>, top: nat, seqNo: u16): (n: nat)
    requires |nums| == |es|
    ensures n % 0x1_0000 == seqNo && (Latest(es).None? ==> top <= n)
  {
    var from := if Latest(es).Some? then nums[Latest(es).value] else top;
    EndsIn(from, seqNo);
    from + (seqNo - from) % 0x1_0000
  }

  lemma EndsIn(from: nat, seqNo: u16)
    ensures (from + (seqNo - from) % 0x1_0000) % 0x1_0000 == seqNo
  {
    var q := (seqNo - from) / 0x1_0000;
    assert from + (seqNo - from) % 0x1_0000 == seqNo - q * 0x1_0000;
  }

  /** A commit's number is the held one plus the step its serial number takes. */
  lemma NextSteps(es: Log, nums: seq<nat>, top: nat, seqNo: u16)
    requires Numbered(es, nums) && Follows(Stored(es), seqNo)
    ensures var n, j := NextNumber(es, nums, top, seqNo), Latest(es);
            j.Some? ==> nums[j.value] <= n <= nums[j.value] + 2
  {
    var j := Latest(es);
    if j.Some? {
      var d: nat :| d <= 2 && seqNo == Plus(Stored(es).value.seqNo, d);
      StepIs(nums[j.value], d);
    }
  }

  lemma StepIs(x: nat, d: nat)
    requires d <= 2
    ensures (Plus(x % 0x1_0000, d) - x) % 0x1_0000 == d
  {
    PlusWraps(x, d);
    var q := (x + d) / 0x1_0000;
    assert (x + d) % 0x1_0000 - x == d - q * 0x1_0000;
    WrapsTo(d, q);
  }

  lemma WrapsTo(d: nat, q: nat)
    requires d < 0x1_0000
    ensures (d - q * 0x1_0000) % 0x1_0000 == d
  {
  }

  /** The numbers of the records once a commit numbered n has been made. */
  function Renumbered(es: Log, nums: seq<nat>, n: nat, ops: nat): (t: seq<nat>)
    requires |es| == RECORDS == |nums|
    ensures |t| == RECORDS
  {
    if Used(es) < RECORDS then nums[Used(es) := n] else if ops == 0 then nums else Fill(RECORDS, n)
  }

  lemma AppendKeepsPace(es: Log, nums: seq<nat>, lo: nat, e: Entry, n: nat) returns (lo': nat)
    requires HoleFree(es) && Used(es) < |es| == RECORDS && Paced(es, nums, lo) && !e.Free?
    requires e.Good? ==> n % 0x1_0000 == e.meta.seqNo
    requires e.Good? && Latest(es).Some? ==> nums[Latest(es).value] <= n <= nums[Latest(es).value] + 2
    ensures Paced(es[Used(es) := e], nums[Used(es) := n], lo')
  {
    if Latest(es).None? {
      lo' := n;
      assert forall i | 0 <= i < Used(es) :: !es[i].Good?;
    } else {
      lo' := lo;
    }
    NumberNext(es, nums, lo', e, n);
  }

  /** Every commit, whole or torn, numbered a step above the held one, keeps the log paced and leaves no hole. */
  lemma CommitKeepsPace(es: Log, nums: seq<nat>, lo: nat, w: Meta, ops: nat, n: nat) returns (lo': nat)
    requires |es| == RECORDS && HoleFree(es) && Paced(es, nums, lo) && Valid(w) && !Collides(w, CutAt(es, ops))
    requires n % 0x1_0000 == w.seqNo
    requires Latest(es).Some? ==> nums[Latest(es).value] <= n <= nums[Latest(es).value] + 2
    ensures Paced(LogAfter(es, w, ops), Renumbered(es, nums, n, ops), lo') && HoleFree(LogAfter(es, w, ops))
  {
    var e := CutEntry(es, w, ops);
    AfterEntry(es, e, ops);
    if Used(es) == RECORDS {
      lo' := if ops > 0 then n else lo;
    } else if e.Free? {
      lo' := lo;
    } else {
      lo' := AppendKeepsPace(es, nums, lo, e, n);
    }
  }
}
