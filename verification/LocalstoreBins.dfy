/** Bin ids over whole runs: counters never go back, new pull entries lie above everything issued before. */
module LocalstoreBins {
  import opened Localstore
  import opened LocalstorePut
  import opened LocalstorePutInv
  import opened LocalstoreGc

  /** No data entry appears or changes. */
  ghost predicate DataShrinks(c: Core, d: Core) {
    forall x :: x in d.data ==> x in c.data && d.data[x] == c.data[x]
  }

  lemma SetShrinks(db: Core, b: Core, mode: SetMode, a: Addr, now: Now)
    ensures DataShrinks(b, SetIn(db, b, mode, a, now).b)
  {}

  lemma {:induction false} SetAllShrinks(db: Core, mode: SetMode, addrs: seq<Addr>, times: seq<Now>)
    requires |times| == |addrs|
    ensures SetAll(db, mode, addrs, times).Ok? ==> DataShrinks(db, SetAll(db, mode, addrs, times).b)
    decreases |addrs|
  {
    hide SetIn;
    if addrs != [] {
      var n := |addrs| - 1;
      SetAllShrinks(db, mode, addrs[..n], times[..n]);
      var r := SetAll(db, mode, addrs[..n], times[..n]);
      if r.Ok? { SetShrinks(db, r.b, mode, addrs[n], times[n]); }
    }
  }

  lemma {:induction false} UnpinAllShrinks(db: Core, addrs: seq<Addr>, times: seq<Now>)
    requires |times| == |addrs|
    ensures DataShrinks(db, UnpinAll(db, addrs, times).0)
    decreases |addrs|
  {
    hide UnpinIn;
    if addrs != [] {
      var n := |addrs| - 1;
      UnpinAllShrinks(db, addrs[..n], times[..n]);
      SetShrinks(db, UnpinAll(db, addrs[..n], times[..n]).0, SetUnpin, addrs[n], times[n]);
    }
  }

  lemma {:induction false} CollectAllShrinks(c: Core, keys: seq<GcKey>)
    ensures DataShrinks(c, CollectAll(c, keys))
    decreases |keys|
  {
    if keys != [] { CollectAllShrinks(c, keys[..|keys| - 1]); }
  }

  /** What a step may do to bins: everything the pull feed relies on. */
  ghost predicate BinsStep(db: DB, db': DB) {
    db'.po == db.po && Binned(db', db'.binIDs) && Grows(db.binIDs, db'.binIDs) && NewAbove(db, db')
  }

  lemma ShrinkBins(db: DB, db': DB)
    requires Binned(db, db.binIDs) && db'.po == db.po && db'.binIDs == db.binIDs && DataShrinks(db.core, db'.core)
    requires forall k :: k in db'.pull ==> k in db.pull && db'.pull[k] == db.pull[k]
    ensures BinsStep(db, db')
  {}

  lemma SetBins(db: DB, mode: SetMode, addrs: seq<Addr>, times: seq<Now>)
    requires Binned(db, db.binIDs) && |times| == |addrs|
    ensures BinsStep(db, Set(db, mode, addrs, times))
  {
    SetAllShrinks(db.core, mode, addrs, times);
    var db' := Set(db, mode, addrs, times);
    assert DataShrinks(db.core, db'.core);
    hide SetAll, DataShrinks, Binned;
    ShrinkBins(db, db');
  }

  /** Every step of a run keeps the bins. */
  lemma BinsKeptByStep(s: Store, op: Op)
    requires Binned(s.db, s.db.binIDs) && Sized(op)
    ensures BinsStep(s.db, Do(s, op).db)
  {
    hide Put, Set, Binned, Grows, NewAbove, DataShrinks;
    match op {
      case OpPut(mode, items, times) =>
        PutBins(s.db, mode, items, times);
        ShrinkSelf(s.db);
      case OpSet(mode, addrs, times) => SetBins(s.db, mode, addrs, times);
      case OpUpdateGC(a, binID, v, now) => UpdateShrinks(s.db, a, binID, v, now);
      case OpUnreserve(id, bin, addrs, times) =>
        UnpinAllShrinks(s.db.core, addrs, times);
        ShrinkBins(s.db, UnreserveBin(s.db, id, bin, addrs, times));
      case OpGcCommit =>
        CollectAllShrinks(s.db.core, Clean(s.candidates, s.dirty));
        ShrinkBins(s.db, Commit(s).db);
      case _ => ShrinkSelf(s.db);
    }
  }

  lemma ShrinkSelf(db: DB)
    requires Binned(db, db.binIDs)
    ensures BinsStep(db, db)
  {}

  lemma UpdateShrinks(db: DB, a: Addr, binID: nat, v: GcValue, now: int)
    requires Binned(db, db.binIDs)
    ensures BinsStep(db, db.(core := UpdateGC(db.core, a, binID, v, now)))
  {
    var db' := db.(core := UpdateGC(db.core, a, binID, v, now));
    assert db'.core.data == db.core.data;
    hide UpdateGC;
    ShrinkBins(db, db');
  }

  /** Two moments of a run, in order. */
  ghost predicate Later(db: DB, db': DB) {
    db'.po == db.po && Grows(db.binIDs, db'.binIDs) && NewAbove(db, db')
  }

  lemma LaterTrans(a: DB, b: DB, c: DB)
    requires Later(a, b) && Later(b, c)
    ensures Later(a, c)
  {
    forall k | k in c.pull
      ensures (k in a.pull && c.pull[k] == a.pull[k]) || k.binID > Counter(a.binIDs, k.bin)
    {
      if k !in b.pull || c.pull[k] != b.pull[k] {
        assert Counter(a.binIDs, k.bin) <= Counter(b.binIDs, k.bin);
      }
    }
    forall bin ensures Counter(a.binIDs, bin) <= Counter(c.binIDs, bin) {
      assert Counter(a.binIDs, bin) <= Counter(b.binIDs, bin) <= Counter(c.binIDs, bin);
    }
  }

  /**
  Any interleaving of calls and collection runs at all: stamps may replace chunks, addresses may repeat, items may
  be stale and clocks may stand still.
  */
  ghost predicate AnyRun(states: seq<Store>, ops: seq<Op>) {
    && |states| == |ops| + 1 && Binned(states[0].db, states[0].db.binIDs)
    && forall i :: 0 <= i < |ops| ==> Sized(ops[i]) && states[i + 1] == Do(states[i], ops[i])
  }

  /**
  Over any run, whatever a bin is given after moment i, in the pull index or only in the store, carries a higher BinID
  than everything that bin had been given up to then, and an id once given never names another chunk.
  */
  lemma {:induction false} BinIDsIncrease(states: seq<Store>, ops: seq<Op>, i: nat, j: nat)
    requires AnyRun(states, ops) && i <= j <= |ops|
    ensures Binned(states[j].db, states[j].db.binIDs)
    ensures Later(states[i].db, states[j].db)
    decreases j
  {
    hide Do;
    if j == 0 {
    } else if i == j {
      BinIDsIncrease(states, ops, i - 1, j - 1);
      BinsKeptByStep(states[j - 1], ops[j - 1]);
      assert states[j] == Do(states[j - 1], ops[j - 1]);
    } else {
      BinIDsIncrease(states, ops, i, j - 1);
      BinsKeptByStep(states[j - 1], ops[j - 1]);
      assert states[j] == Do(states[j - 1], ops[j - 1]);
      hide Grows, NewAbove, Binned;
      LaterTrans(states[i].db, states[j - 1].db, states[j].db);
    }
  }
}
