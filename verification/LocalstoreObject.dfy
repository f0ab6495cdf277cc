/** The store as an object: the loops of set, put and the commit of collectGarbage, each one locked call. */
module LocalstoreObject {
  import opened Common
  import opened Localstore
  import opened LocalstorePut
  import opened LocalstoreGc
  import opened LocalstorePutInv

  class LocalStore {
    var db: DB
    var gcRunning: bool
    var dirtyAddresses: seq<Addr>
    var candidates: seq<GcKey>

    /** The state the interleaving model works on. */
    function View(): Store
      reads this
    {
      Store(db, gcRunning, (set a | a in dirtyAddresses), candidates)
    }

    method SetChunks(mode: SetMode, addrs: seq<Addr>, times: seq<Now>) returns (failed: bool)
      requires |times| == |addrs|
      modifies this`db, this`dirtyAddresses
      ensures db == Set(old(db), mode, addrs, times)
      ensures View().dirty == Mark(old(View()), addrs)
      ensures failed <==> SetAll(old(db).core, mode, addrs, times).Err?
    {
      hide SetIn, SetAll, PullKeysOf, ChunkKeysOf;
      if gcRunning { dirtyAddresses := dirtyAddresses + addrs; }
      var batch := db.core;
      var gcSizeChange := 0;
      SetNothing(db.core, mode, addrs, times);
      for i := 0 to |addrs|
        invariant db == old(db) && View().dirty == Mark(old(View()), addrs)
        invariant SetAll(db.core, mode, addrs[..i], times[..i]) == Ok(batch, gcSizeChange)
      {
        SetAllNext(db.core, mode, addrs, times, i);
        var s := SetIn(db.core, batch, mode, addrs[i], times[i]);
        if s.Err? {
          SetErrStays(db.core, mode, addrs, times, i + 1);
          return true;
        }
        batch := s.b;
        gcSizeChange := gcSizeChange + s.change;
      }
      assert addrs[..|addrs|] == addrs && times[..|times|] == times;
      if mode == SetRemove {
        db := db.(pull := db.pull - PullKeysOf(db, addrs), postageChunks := db.postageChunks - ChunkKeysOf(db, addrs));
      }
      db := db.(core := batch, gcSize := IncGCSize(db.gcSize, gcSizeChange));
      failed := false;
    }

    method PutChunks(mode: PutMode, items: seq<Item>, times: seq<Now>) returns (exist: seq<bool>, failed: bool)
      requires |times| == |items|
      modifies this`db, this`dirtyAddresses
      ensures PutShortcut(old(View()), mode, items) ==> View() == old(View()) && exist == [true] && !failed
      ensures !PutShortcut(old(View()), mode, items) ==>
                db == Put(old(db), mode, items, times) && View().dirty == Mark(old(View()), Addrs(items))
      ensures !failed ==> ExistFlags(old(db), items, exist)
    {
      if |items| == 1 && mode != PutRequestPin && mode != PutUploadPin && items[0].addr in db.core.data {
        return [true], false;
      }
      if gcRunning { dirtyAddresses := dirtyAddresses + Addrs(items); }
      var r;
      r, exist := PutLoop(db, mode, items, times);
      hide PutAll;
      if r.PutErr? { return [], true; }
      db := r.b.(binIDs := db.binIDs + r.ids, gcSize := IncGCSize(db.gcSize, r.change));
      failed := false;
    }

    /** The locked half of collectGarbage: weed out dirty candidates, delete the rest in one batch. */
    method CommitGarbage(target: nat) returns (collectedCount: nat, done: bool)
      modifies this`db, this`candidates
      ensures View() == Commit(old(View()))
      ensures collectedCount == |Clean(old(candidates), old(View().dirty))|
      ensures done <==> db.gcSize <= target
    {
      var keys, batch;
      keys, batch, collectedCount := WeedOut(db.core, candidates, dirtyAddresses);
      hide Clean, CollectAll;
      var values := set k | k in keys && k in db.core.gc :: (k, db.core.gc[k]);
      db := db.(core := batch, gcSize := MinusUint64(db.gcSize, collectedCount),
                pull := db.pull - (set k | k in keys :: PullKey(db.po(k.addr), k.binID)),
                postageChunks := db.postageChunks - (set kv | kv in values ::
                                                       ChunkKey(kv.1.batch, db.po(kv.0.addr), kv.0.addr)),
                postageIndex := db.postageIndex - (set kv | kv in values :: StampKey(kv.1.batch, kv.1.index)));
      candidates := [];
      done := !(db.gcSize > target);
    }

    /** The bins from the recorded radius up to the new one, each written as one batch, then the new radius. */
    method UnreserveBatch(id: BatchID, radius: nat, scans: seq<seq<Addr>>, times: seq<seq<Now>>)
      returns (evicted: nat)
      requires |times| == |scans| && forall i :: 0 <= i < |scans| ==> |times[i]| == |scans[i]|
      requires OldRadius(db, id, radius) + |scans| == Max(OldRadius(db, id, radius), radius)
      modifies this`db
      ensures (db, evicted) == Unreserve(old(db), id, radius, scans, times)
    {
      hide UnpinAll, Evicts, UnreserveBins, IncGCSize;
      var oldRadius := radius;
      if id in db.postageRadius { oldRadius := db.postageRadius[id]; }
      evicted := 0;
      NoRoundsYet(db, id, oldRadius, scans, times);
      var bin := oldRadius;
      while bin < radius
        invariant oldRadius <= bin <= Max(oldRadius, radius)
        invariant (db, evicted) ==
                  UnreserveBins(old(db), id, oldRadius, scans[..bin - oldRadius], times[..bin - oldRadius])
      {
        RoundsNext(old(db), id, oldRadius, scans, times, bin - oldRadius);
        ghost var before := db.postageRadius;
        var batch, gcSizeChange, unpinned := UnpinLoop(db.core, scans[bin - oldRadius], times[bin - oldRadius]);
        db := db.(core := batch, gcSize := IncGCSize(db.gcSize, gcSizeChange),
                  postageRadius := db.postageRadius[id := bin]);
        if bin == MAX_PO { db := db.(postageRadius := db.postageRadius - {id}); }
        assert bin == MAX_PO ==> db.postageRadius == before - {id};
        evicted := evicted + unpinned;
        bin := bin + 1;
      }
      assert scans[..|scans|] == scans && times[..|times|] == times;
      if radius != MAX_PO + 1 { db := db.(postageRadius := db.postageRadius[id := radius]); }
    }
  }

  /** The unpin callback over the chunks of one bin. */
  method UnpinLoop(c: Core, addrs: seq<Addr>, times: seq<Now>) returns (batch: Core, gcSizeChange: int, evicted: nat)
    requires |times| == |addrs|
    ensures (batch, gcSizeChange) == UnpinAll(c, addrs, times) && evicted == Evicts(c, addrs)
  {
    hide UnpinIn;
    batch, gcSizeChange, evicted := c, 0, 0;
    for i := 0 to |addrs|
      invariant (batch, gcSizeChange) == UnpinAll(c, addrs[..i], times[..i]) && evicted == Evicts(c, addrs[..i])
    {
      assert addrs[..i + 1][..i] == addrs[..i] && times[..i + 1][..i] == times[..i];
      UnpinOutcome(c, batch, addrs[i], times[i]);
      var s := UnpinIn(c, batch, addrs[i], times[i]);
      if s.Ok? {
        evicted := evicted + 1;
        gcSizeChange := gcSizeChange + s.change;
      }
      batch := s.b;
    }
    assert addrs[..|addrs|] == addrs && times[..|times|] == times;
  }

  lemma NoRoundsYet(db: DB, id: BatchID, from: nat, scans: seq<seq<Addr>>, times: seq<seq<Now>>)
    requires |times| == |scans| && forall i :: 0 <= i < |scans| ==> |times[i]| == |scans[i]|
    ensures UnreserveBins(db, id, from, scans[..0], times[..0]) == (db, 0)
  {}

  /** One round of UnreserveBatch. */
  lemma RoundsNext(db: DB, id: BatchID, from: nat, scans: seq<seq<Addr>>, times: seq<seq<Now>>, n: nat)
    requires |times| == |scans| && (forall i :: 0 <= i < |scans| ==> |times[i]| == |scans[i]|) && n < |scans|
    ensures var (d, evicted) := UnreserveBins(db, id, from, scans[..n], times[..n]);
      UnreserveBins(db, id, from, scans[..n + 1], times[..n + 1]) ==
        (UnreserveBin(d, id, from + n, scans[n], times[n]), evicted + Evicts(d.core, scans[n]))
  {
    hide UnreserveBin, Evicts;
    assert scans[..n + 1][..n] == scans[..n] && times[..n + 1][..n] == times[..n];
  }

  /** Whether a chunk can be unpinned does not depend on the batch or the clock. */
  lemma UnpinOutcome(c: Core, b: Core, a: Addr, now: Now)
    ensures UnpinIn(c, b, a, now).Ok? <==> UnpinIn(c, c, a, Now(0, 0)).Ok?
  {}

  /** exist[i] tells whether chunk i was stored before, or occurs earlier in the same call. */
  ghost predicate ExistFlags(db: DB, items: seq<Item>, exist: seq<bool>) {
    |exist| == |items| && forall i :: 0 <= i < |items| ==>
      (exist[i] <==> items[i].addr in db.core.data || Contains(items[..i], items[i].addr))
  }

  method PutLoop(db: DB, mode: PutMode, items: seq<Item>, times: seq<Now>) returns (r: PutStep, exist: seq<bool>)
    requires |times| == |items|
    ensures r == PutAll(db, mode, items, times)
    ensures r.PutOk? ==> ExistFlags(db, items, exist)
  {
    hide PutIn, PutAll, ExistFlags, Contains;
    exist := [];
    r := PutOk(db, map[], false, 0);
    NothingPut(db, mode, items, times);
    for i := 0 to |items|
      invariant r.PutOk? && ExistFlags(db, items[..i], exist)
      invariant PutAll(db, mode, items[..i], times[..i]) == r
    {
      PutAllNext(db, mode, items, times, i);
      if Contains(items[..i], items[i].addr) {
        FlagsNext(db, items, i, exist, true);
        exist := exist + [true];
      } else {
        var s := PutIn(db, r.b, r.ids, items[i], mode, times[i]);
        if s.PutErr? {
          PutErrStays(db, mode, items, times, i + 1);
          return PutErr, [];
        }
        PutTellsExisting(db, r.b, r.ids, items[i], mode, times[i]);
        FlagsNext(db, items, i, exist, s.existed);
        r := s.(change := r.change + s.change);
        exist := exist + [s.existed];
      }
    }
    assert items[..|items|] == items && times[..|times|] == times;
  }

  method WeedOut(c: Core, candidates: seq<GcKey>, dirtyAddresses: seq<Addr>)
    returns (keys: seq<GcKey>, batch: Core, collectedCount: nat)
    ensures keys == Clean(candidates, set a | a in dirtyAddresses)
    ensures batch == CollectAll(c, keys) && collectedCount == |keys|
  {
    ghost var dirty := set a | a in dirtyAddresses;
    collectedCount := |candidates|;
    batch := c;
    keys := [];
    for i := 0 to |candidates|
      invariant keys == Clean(candidates[..i], dirty) && batch == CollectAll(c, keys)
      invariant collectedCount == |keys| + (|candidates| - i)
    {
      assert candidates[..i + 1][..i] == candidates[..i];
      if candidates[i].addr in dirtyAddresses {
        collectedCount := collectedCount - 1;
      } else {
        assert (keys + [candidates[i]])[..|keys|] == keys;
        keys := keys + [candidates[i]];
        batch := CollectIn(batch, candidates[i]);
      }
    }
    assert candidates[..|candidates|] == candidates;
  }

  lemma SetNothing(c: Core, mode: SetMode, addrs: seq<Addr>, times: seq<Now>)
    requires |times| == |addrs|
    ensures SetAll(c, mode, addrs[..0], times[..0]) == Ok(c, 0)
  {}

  /** One round of set's loop. */
  lemma SetAllNext(c: Core, mode: SetMode, addrs: seq<Addr>, times: seq<Now>, i: nat)
    requires |times| == |addrs| && i < |addrs|
    ensures var r := SetAll(c, mode, addrs[..i], times[..i]);
      SetAll(c, mode, addrs[..i + 1], times[..i + 1]) ==
        if r.Err? then r
        else var s := SetIn(c, r.b, mode, addrs[i], times[i]);
          if s.Err? then s else Ok(s.b, r.change + s.change)
  {
    hide SetIn;
    assert addrs[..i + 1][..i] == addrs[..i] && times[..i + 1][..i] == times[..i];
  }

  lemma NothingPut(db: DB, mode: PutMode, items: seq<Item>, times: seq<Now>)
    requires |times| == |items|
    ensures PutAll(db, mode, items[..0], times[..0]) == PutOk(db, map[], false, 0) && ExistFlags(db, items[..0], [])
  {}

  lemma FlagsNext(db: DB, items: seq<Item>, i: nat, exist: seq<bool>, flag: bool)
    requires i < |items| && ExistFlags(db, items[..i], exist)
    requires flag <==> items[i].addr in db.core.data || Contains(items[..i], items[i].addr)
    ensures ExistFlags(db, items[..i + 1], exist + [flag])
  {
    hide Contains;
    forall j | 0 <= j < i + 1
      ensures (exist + [flag])[j] <==> items[j].addr in db.core.data || Contains(items[..i + 1][..j], items[j].addr)
    {
      assert items[..i + 1][..j] == items[..j]
             && (j < i ==> items[..i][..j] == items[..j] && items[..i][j] == items[j]);
    }
  }

  /** One round of put's loop. */
  lemma PutAllNext(db: DB, mode: PutMode, items: seq<Item>, times: seq<Now>, i: nat)
    requires |times| == |items| && i < |items|
    ensures var r := PutAll(db, mode, items[..i], times[..i]);
      PutAll(db, mode, items[..i + 1], times[..i + 1]) ==
        if r.PutErr? || Contains(items[..i], items[i].addr) then r
        else var s := PutIn(db, r.b, r.ids, items[i], mode, times[i]);
          if s.PutErr? then s else s.(change := r.change + s.change)
  {
    hide PutIn, Contains;
    assert items[..i + 1][..i] == items[..i] && times[..i + 1][..i] == times[..i];
  }

  lemma PutTellsExisting(db: DB, b: DB, ids: map<nat, nat>, item: Item, mode: PutMode, now: Now)
    ensures var s := PutIn(db, b, ids, item, mode, now); s.PutOk? ==> (s.existed <==> item.addr in db.core.data)
  {}

  lemma {:induction false} SetErrStays(db: Core, mode: SetMode, addrs: seq<Addr>, times: seq<Now>, i: nat)
    requires |times| == |addrs| && i <= |addrs| && SetAll(db, mode, addrs[..i], times[..i]).Err?
    ensures SetAll(db, mode, addrs, times).Err?
    decreases |addrs| - i
  {
    if i == |addrs| {
      assert addrs[..i] == addrs && times[..i] == times;
    } else {
      assert addrs[..i + 1][..i] == addrs[..i] && times[..i + 1][..i] == times[..i];
      SetErrStays(db, mode, addrs, times, i + 1);
    }
  }

  lemma {:induction false} PutErrStays(db: DB, mode: PutMode, items: seq<Item>, times: seq<Now>, i: nat)
    requires |times| == |items| && i <= |items| && PutAll(db, mode, items[..i], times[..i]).PutErr?
    ensures PutAll(db, mode, items, times).PutErr?
    decreases |items| - i
  {
    if i == |items| {
      assert items[..i] == items && times[..i] == times;
    } else {
      assert items[..i + 1][..i] == items[..i] && times[..i + 1][..i] == times[..i];
      PutErrStays(db, mode, items, times, i + 1);
    }
  }
}
