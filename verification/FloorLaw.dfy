/** The version floor exactly: the greatest version ever confirmed, and the versions it lets in. */
module FloorLaw {
  import opened Bytes
  import opened Flash
  import opened MetaRecord
  import opened MetaLog
  import opened MetaHistory
  import opened MetaStore
  import opened Session
  import opened Boot
  import opened Machine
  import opened Safety
  import opened Runs
  import opened Contract
  import opened EndToEnd
  import opened Theorems

  /** A confirmation of a slot changes exactly these fields; the floor rises to the slot's version, and no further. */
  lemma ConfirmationExact(m: Meta, slot: byte)
    requires slot <= 1
    ensures var w, a, b := ConfirmedMeta(m, slot), m.imageA, m.imageB;
            var version := if slot == 1 then b.version else a.version;
            && w.minVersion in {m.minVersion, version} && w.minVersion >= m.minVersion && w.minVersion >= version
            && w == Meta(m.magic, m.schema, Next16(m.seqNo), slot, 0xFF, slot, 0,
                         if slot == 1 then a else Image(a.version, a.size, a.crc, 3),
                         if slot == 1 then Image(b.version, b.size, b.crc, 3) else b,
                         m.rollbacks, w.minVersion, m.lastError, m.crc)
  {
  }

  lemma {:induction false} CommitShows(es: Log, w: Meta)
    requires |es| == RECORDS && Valid(w)
    ensures LogAfter(es, w, CommitOps(es)) != es
  {
    var e := CutEntry(es, w, CommitOps(es));
    var t := LogAfter(es, w, CommitOps(es));
    if Used(es) < RECORDS {
      assert t[Used(es)] != es[Used(es)];
    } else {
      assert t[1].Free? && !es[1].Free?;
    }
  }

  /** The application touches flash exactly when its own slot is the pending one and is marked pending. */
  lemma {:induction false} ConfirmsIff(mem: seq<byte>, slot: byte)
    requires |mem| == FLASH_SIZE && slot <= 1
    ensures (exists ops: nat :: Confirm(mem, slot, ops) != mem) <==>
            var held := Stored(LogOf(mem));
            held.Some? && held.value.pending == slot
            && (if slot == 1 then held.value.imageB.state else held.value.imageA.state) == 2
  {
    hide LogOf, Stored, Store, Checksum;
    var held := Stored(LogOf(mem));
    if held.Some? && Confirmable(held.value, slot) {
      var w, ops := ConfirmedMeta(held.value, slot), CommitOps(LogOf(mem));
      StoredIsValid(mem);
      SealedIsValid(w);
      StoreEffect(mem, w, false, ops);
      CommitShows(LogOf(mem), ToStore(w, false));
      assert Confirm(mem, slot, ops) != mem;
    }
  }

  /** The greatest of lo and the versions. */
  function Greatest(lo: u32, vs: seq<u32>): (r: u32)
    ensures r >= lo && (forall v | v in vs :: r >= v) && (r == lo || r in vs)
  {
    if vs == [] then lo
    else
      var n := |vs| - 1;
      assert forall v | v in vs :: v in vs[..n] || v == vs[n];
      Higher(Greatest(lo, vs[..n]), vs[n])
  }

  lemma {:induction false} GreatestMore(lo: u32, vs: seq<u32>, v: u32)
    ensures Greatest(lo, vs + if v != 0 then [v] else []) == Higher(Greatest(lo, vs), v)
  {
    if v == 0 {
      assert vs + [] == vs;
    } else {
      assert (vs + [v])[..|vs|] == vs;
    }
  }

  /** What one event does to the floor, in terms of the version it confirms. */
  lemma FloorMoves(before: State, after: State)
    requires StateOk(before) && StateOk(after) && Advances(Effective(before), Effective(after))
    ensures var v := ImageOf(Effective(after), Home(after)).version;
            Effective(after).minVersion
            == if Home(after) != Home(before) then Higher(Effective(before).minVersion, v)
               else Effective(before).minVersion
  {
    hide LogOf, Load;
  }

  /** After every run that loses no metadata the floor is the greatest of the old floor and the versions confirmed. */
  lemma {:induction false} FloorIsGreatest(st: State, es: seq<Event>)
    requires Inv(st) && AllRegular(st, es) && AllWhole(st, es)
    ensures Effective(Run(st, es)).minVersion == Greatest(Effective(st).minVersion, Confirmations(st, es))
    decreases |es|
  {
    hide Next, LogOf, LogOk, Sane, Effective, Regular, OutsideCompaction, Advances, Greatest;
    if es == [] {
      GreatestOfNone(Effective(st).minVersion);
    } else {
      var init := es[..|es| - 1];
      LastOfRun(st, es);
      RunKeeps(st, init);
      FloorIsGreatest(st, init);
      EventAdvances(Run(st, init), es[|init|]);
      FloorMoves(Run(st, init), Run(st, es));
      LastConfirmation(st, es);
      var v := ImageOf(Effective(Run(st, es)), Home(Run(st, es))).version;
      GreatestMore(Effective(st).minVersion, Confirmations(st, init), v);
      GreatestMore(Effective(st).minVersion, Confirmations(st, init), 0);
    }
  }

  lemma {:induction false} GreatestOfNone(lo: u32)
    ensures Greatest(lo, []) == lo
  {
  }

  /** A PREPARE with nothing but its version to speak against it. */
  predicate OtherwiseFit(st: State, e: Event)
    requires StateOk(st) && st.phase.Loader?
  {
    && Frames(e, OTA_PREPARE) && |e.kind.frame.payload| >= 12
    && Unfit(st.phase.meta, e.kind.frame.payload, e.ops) in {None, Some(VersionRollback)}
    && e.ops >= 3
  }

  lemma FloorDecidesHere(st: State, e: Event)
    requires Inv(st) && st.phase.Loader? && OtherwiseFit(st, e)
    ensures var version := VersionIn(e.kind.frame.payload);
            && (ReplyTo(st, e).Ack? <==> version == 0 || version >= Effective(st).minVersion)
            && (!ReplyTo(st, e).Ack? ==> ReplyTo(st, e) == Nack(ReadU16(e.kind.frame.payload, 0), VersionRollback))
  {
    hide LogOf, LogOk, ReadU32, ReadU16;
    var c, m, f := st.phase.ctx, st.phase.meta, e.kind.frame;
    PrepareAnswered(st.mem, c, m, f.payload, e.ops);
    hide Prepare;
    assert Handle(st.mem, c, m, f, e.ops) == Prepare(st.mem, c, m, f.payload, e.ops);
  }

  /**
   * In the loader after such a run, a PREPARE in bounds is acknowledged exactly when it announces no version or one
   * that is at least the old floor and every version confirmed along the run.
   */
  lemma {:induction false} FloorDecides(st: State, es: seq<Event>, e: Event)
    requires Inv(st) && AllRegular(st, es) && AllWhole(st, es) && Run(st, es).phase.Loader?
    requires OtherwiseFit(Run(st, es), e)
    ensures var version := VersionIn(e.kind.frame.payload);
            ReplyTo(Run(st, es), e).Ack? <==>
            || version == 0
            || (version >= Effective(st).minVersion && forall v | v in Confirmations(st, es) :: version >= v)
  {
    hide Next, LogOf, LogOk, Sane, Effective, Unfit, Handle, AllRegular, AllWhole, Confirmations, ReplyTo, Run;
    RunKeeps(st, es);
    FloorIsGreatest(st, es);
    FloorDecidesHere(Run(st, es), e);
  }
}
