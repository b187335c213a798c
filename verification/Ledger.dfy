/** The commits of a run and the unbounded numbers it assigns to them: the scan always yields the newest. */
module Ledger {
  import opened Bytes
  import opened MetaRecord
  import opened MetaLog
  import opened MetaHistory
  import opened MetaStore
  import opened Session
  import opened Boot
  import opened Machine
  import opened Safety
  import opened Runs

  // ---- The record an event commits is what reaches the log ----

  /** What an event makes of the log, given what it writes. */
  function LogBy(es: Log, w: Option<Meta>, ops: nat): (t: Log)
    requires |es| == RECORDS
    ensures |t| == RECORDS
  {
    if w.Some? then LogAfter(es, w.value, ops) else es
  }

  /** A record the firmware may write behind this log. */
  ghost predicate Fitting(es: Log, w: Option<Meta>) {
    w.Some? ==> Valid(w.value) && Sane(w.value) && Follows(Stored(es), w.value.seqNo)
  }

  lemma PowerOnLog(st: State, e: Event)
    requires Inv(st) && e.kind.PowerOn?
    ensures LogOf(Next(st, e).mem) == LogBy(LogOf(st.mem), Written(st, e.kind), e.ops)
    ensures Fitting(LogOf(st.mem), Written(st, e.kind))
  {
    hide LogAfter, Committed, Seal, Checksum;
    DefaultSane();
    SealedSane(DefaultMeta(), true);
    StoreEffect(st.mem, DefaultMeta(), true, e.ops);
  }

  lemma FrameLog(st: State, e: Event)
    requires Inv(st) && e.kind.Receive?
    ensures LogOf(Next(st, e).mem) == LogBy(LogOf(st.mem), Written(st, e.kind), e.ops)
    ensures Fitting(LogOf(st.mem), Written(st, e.kind))
  {
    hide Handle, LogAfter, ToStore, Proposed, LogOf;
    if st.phase.Loader? {
      var c, m, f := st.phase.ctx, st.phase.meta, e.kind.frame;
      if CommitAccepted(c, f) {
        HandleCommits(st.mem, c, m, f, e.ops);
        ProposedSane(c, m);
        SealedSane(Proposed(c, m), true);
        FollowsProposed(c, m, Effective(st));
        FollowsLoaded(LogOf(st.mem), ToStore(Proposed(c, m), true).seqNo);
      } else {
        HandleStays(st.mem, c, m, f, e.ops);
      }
    }
  }

  lemma FollowsLoaded(es: Log, seqNo: u16)
    requires Follows(Some(Load(es)), seqNo)
    ensures Follows(Stored(es), seqNo)
  {
  }

  lemma LeaveLog(st: State, e: Event)
    requires Inv(st) && e.kind.Leave?
    ensures LogOf(Next(st, e).mem) == LogBy(LogOf(st.mem), Written(st, e.kind), e.ops)
    ensures Fitting(LogOf(st.mem), Written(st, e.kind))
  {
    hide LogAfter, ToStore, Decided, LogOf, Decide, Fallback;
    if st.phase.Loader? && !st.phase.stuck {
      var m, d := st.phase.meta, Decided(st.mem, st.phase.meta);
      LeaveEnds(st, e.ops);
      if IsSlot(m.pending) {
        DecidedSane(st.mem, m, Effective(st));
        SealedSane(d, true);
        MirrorsStored(d, Effective(st));
        FollowsLoaded(LogOf(st.mem), ToStore(d, true).seqNo);
        StoreEffect(st.mem, d, true, e.ops);
      }
    }
  }

  lemma ConfirmLog(st: State, e: Event)
    requires Inv(st) && e.kind.SelfConfirm?
    ensures LogOf(Next(st, e).mem) == LogBy(LogOf(st.mem), Written(st, e.kind), e.ops)
    ensures Fitting(LogOf(st.mem), Written(st, e.kind))
  {
    hide LogAfter, LogOk, LogOf, Stored, Load, Valid, ToStore, ConfirmedMeta, Store;
    if Written(st, e.kind).Some? {
      var m := ConfirmedMeta(Effective(st), st.phase.slot);
      ConfirmWrites(st, e);
      ConfirmedSane(Effective(st), st.phase.slot);
      FollowsLoaded(LogOf(st.mem), ToStore(m, false).seqNo);
      StoreEffect(st.mem, m, false, e.ops);
    }
  }

  /** Every event changes the log by exactly the commit it makes, and that commit fits the log. */
  lemma EventLog(st: State, e: Event)
    requires Inv(st)
    ensures LogOf(Next(st, e).mem) == LogBy(LogOf(st.mem), Written(st, e.kind), e.ops)
    ensures Fitting(LogOf(st.mem), Written(st, e.kind))
  {
    match e.kind
    case PowerOn => PowerOnLog(st, e);
    case Receive(_) => FrameLog(st, e);
    case Leave => LeaveLog(st, e);
    case SelfConfirm => ConfirmLog(st, e);
    case Reset =>
  }

  // ---- Numbering the commits of a run ----

  /** The number of the commit in each record slot, and the greatest number of a commit that landed. */
  datatype Book = Book(nums: seq<nat>, top: nat)

  /** The record is in the log as a whole. */
  predicate Lands(es: Log, w: Meta, ops: nat) {
    TornEntry(w, CutAt(es, ops)) == Good(w)
  }

  /** The book once w has been committed: its number continues the held one's, also over a rewrite or a loss. */
  function Entered(es: Log, b: Book, w: Meta, ops: nat): (r: Book)
    requires |es| == RECORDS == |b.nums|
    ensures |r.nums| == RECORDS
  {
    var n := NextNumber(es, b.nums, b.top, w.seqNo);
    Book(Renumbered(es, b.nums, n, ops), if Lands(es, w, ops) then n else b.top)
  }

  /** The book fits the log: numbers end in the serial numbers, and the record loaded carries the greatest. */
  ghost predicate Booked(es: Log, b: Book) {
    && |es| == RECORDS == |b.nums| && HoleFree(es) && (exists lo: nat :: Paced(es, b.nums, lo))
    && (Latest(es).Some? ==> b.nums[Latest(es).value] == b.top)
  }

  lemma LatestAppended(es: Log, b: Book, w: Meta, ops: nat, e: Entry)
    requires Booked(es, b) && Used(es) < RECORDS && !e.Free? && Follows(Stored(es), w.seqNo)
    requires e == TornEntry(w, CutAt(es, ops)) && (e.Good? ==> e == Good(w))
    ensures var t, b' := es[Used(es) := e], Entered(es, b, w, ops);
            Latest(t).Some? ==> b'.nums[Latest(t).value] == b'.top
  {
    AppendEntry(es, e);
    var j, n := Latest(es), NextNumber(es, b.nums, b.top, w.seqNo);
    NextSteps(es, b.nums, b.top, w.seqNo);
    if e.Good? && j.Some? { NewerIsGreater(n, b.nums[j.value]); }
  }

  /** Whatever a commit leaves, the record the scan then finds carries the greatest number of a commit that landed. */
  lemma LatestEntered(es: Log, b: Book, w: Meta, ops: nat)
    requires Booked(es, b) && Valid(w) && Follows(Stored(es), w.seqNo) && !Collides(w, CutAt(es, ops))
    ensures var t, b' := LogAfter(es, w, ops), Entered(es, b, w, ops);
            && (Latest(t).Some? ==> b'.nums[Latest(t).value] == b'.top)
            && b.top <= b'.top && (Latest(es).Some? ==> b'.top <= b.top + 2)
  {
    hide Valid, LogAfter, TornEntry, Follows, Collides, CutAt, NextNumber;
    var e := CutEntry(es, w, ops);
    NextSteps(es, b.nums, b.top, w.seqNo);
    AfterEntry(es, e, ops);
    if Used(es) == RECORDS {
      if ops > 0 { LatestRewritten(es, b, w, ops, e); }
    } else if !e.Free? {
      hide Latest;
      LatestAppended(es, b, w, ops, e);
    }
  }

  lemma LatestRewritten(es: Log, b: Book, w: Meta, ops: nat, e: Entry)
    requires |es| == RECORDS == |b.nums| && Used(es) == RECORDS && ops > 0
    requires e == TornEntry(w, CutAt(es, ops)) && (e.Good? ==> e == Good(w))
    ensures var t, b' := Fill(RECORDS, Free)[0 := e], Entered(es, b, w, ops);
            Latest(t).Some? ==> b'.nums[Latest(t).value] == b'.top
  {
    hide TornEntry, NextNumber, Used;
    var t := Fill(RECORDS, Free)[0 := e];
    assert forall i | 0 < i < RECORDS :: t[i].Free?;
  }

  lemma EnteredBooked(es: Log, b: Book, w: Meta, ops: nat)
    requires Booked(es, b) && Valid(w) && Follows(Stored(es), w.seqNo) && !Collides(w, CutAt(es, ops))
    ensures Booked(LogAfter(es, w, ops), Entered(es, b, w, ops))
  {
    hide Valid, LogAfter, TornEntry, Follows, Collides, CutAt, Latest;
    var lo: nat :| Paced(es, b.nums, lo);
    NextSteps(es, b.nums, b.top, w.seqNo);
    var lo' := CommitKeepsPace(es, b.nums, lo, w, ops, NextNumber(es, b.nums, b.top, w.seqNo));
    LatestEntered(es, b, w, ops);
  }

  /** An erased sector, and any other log the invariant allows, has a book to start from. */
  lemma BookExists(es: Log) returns (b: Book)
    requires LogOk(es)
    ensures Booked(es, b)
  {
    var nums, lo: nat :| Paced(es, nums, lo);
    b := Book(nums, if Latest(es).Some? then nums[Latest(es).value] else 0);
  }

  // ---- Along a run ----

  /** The book after one event. */
  function Posted(st: State, b: Book, e: Event): (r: Book)
    requires StateOk(st) && |b.nums| == RECORDS
    ensures |r.nums| == RECORDS
  {
    var w := Written(st, e.kind);
    if w.Some? then Entered(LogOf(st.mem), b, w.value, e.ops) else b
  }

  /** The book after a run. */
  function Books(st: State, b: Book, es: seq<Event>): (r: Book)
    requires StateOk(st) && |b.nums| == RECORDS
    ensures |r.nums| == RECORDS
    decreases |es|
  {
    if es == [] then b else Posted(Run(st, es[..|es| - 1]), Books(st, b, es[..|es| - 1]), es[|es| - 1])
  }

  /** The numbers the run assigned to commits that landed, in order. */
  function Landed(st: State, b: Book, es: seq<Event>): seq<nat>
    requires StateOk(st) && |b.nums| == RECORDS
    decreases |es|
  {
    if es == [] then []
    else
      var init, e := es[..|es| - 1], es[|es| - 1];
      var before, w := Run(st, init), Written(Run(st, init), e.kind);
      Landed(st, b, init)
      + if w.Some? && Lands(LogOf(before.mem), w.value, e.ops) then [Books(st, b, es).top] else []
  }

  lemma EventPosted(st: State, b: Book, e: Event)
    requires Inv(st) && CleanTear(st, e) && Booked(LogOf(st.mem), b)
    ensures Booked(LogOf(Next(st, e).mem), Posted(st, b, e))
    ensures b.top <= Posted(st, b, e).top
  {
    hide LogOf, Booked, LogOk, Valid, Sane, Next;
    var w := Written(st, e.kind);
    EventLog(st, e);
    if w.Some? {
      EnteredBooked(LogOf(st.mem), b, w.value, e.ops);
      LatestEntered(LogOf(st.mem), b, w.value, e.ops);
    }
  }
}
