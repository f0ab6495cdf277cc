/** put keeps the indexes in agreement and hands out strictly increasing bin ids. */
module LocalstorePutInv {
  import opened Localstore
  import opened LocalstorePut
  import opened LocalstoreInv

  // ---------------------------------------------------------------- a new chunk

  lemma NewUploadKept(c: Core, a: Addr, d: Data, t: int, t': int)
    requires AgreeAt(c, t, a) && a !in c.data && 0 <= t < d.storeTs <= t'
    ensures OnlyAt(c, NewUpload(c, a, d), a) && AgreeAt(NewUpload(c, a, d), t', a)
    ensures NewUpload(c, a, d).gc == c.gc
  {
    assert AgreeAt(NewUpload(c, a, d), t', a);
    hide AgreeAt, OnlyAt;
    DataWrites(c, a, d);
    PushWrites(DataPut(c, a, d), PushKey(d.storeTs, a));
    OnlyAtTrans(c, DataPut(c, a, d), NewUpload(c, a, d), a);
  }

  lemma NewPinAgrees(c: Core, a: Addr, d: Data, t: int, t': int)
    requires AgreeAt(c, t, a) && a !in c.data && 0 <= t < d.storeTs <= t'
    ensures var s := PinIn(c, NewUpload(c, a, d), a);
            s.Ok? && AgreeAt(s.b, t', a) && s.b.gc == c.gc && s.change == 0
  {}

  lemma NewPinKept(c: Core, a: Addr, d: Data, t: int, t': int)
    requires AgreeAt(c, t, a) && a !in c.data && 0 <= t < d.storeTs <= t'
    ensures Kept(c, PinIn(c, NewUpload(c, a, d), a), a, t') && PinIn(c, NewUpload(c, a, d), a).Ok?
  {
    NewPinAgrees(c, a, d, t, t');
    NewUploadKept(c, a, d, t, t');
    hide AgreeAt, OnlyAt, PinIn, NewUpload;
    PinOnlyAt(c, c, NewUpload(c, a, d), a);
  }

  lemma NewReserved(c: Core, a: Addr, d: Data, access: int, t: int, t': int)
    requires AgreeAt(c, t, a) && a !in c.data && 0 <= t < d.storeTs < access <= t'
    ensures var s := PinIn(c, AccessPut(DataPut(c, a, d), a, access), a);
            s.Ok? && AgreeAt(s.b, t', a) && s.b.gc == c.gc && s.change == 0
  {}

  lemma NewCollectable(c: Core, a: Addr, d: Data, access: int, t: int, t': int)
    requires AgreeAt(c, t, a) && a !in c.data && 0 <= t < d.storeTs < access <= t'
    ensures var s := CacheIn(c, AccessPut(DataPut(c, a, d), a, access), a, access, d);
            s.Ok? && AgreeAt(s.b, t', a) && |s.b.gc| == |c.gc| + s.change
  {
    CardAdd(c.gc, GcKey(access, d.binID, a), GcValue(d.batch, d.index));
  }

  lemma CacheOnlyAt(db: Core, c: Core, b: Core, a: Addr, access: int, d: Data)
    requires OnlyAt(c, b, a)
    ensures OnlyAt(c, CacheIn(db, b, a, access, d).b, a)
  {
    hide OnlyAt, GcPut;
    var k := GcKey(access, d.binID, a);
    var v := GcValue(d.batch, d.index);
    GcWrites(b, k, v);
    OnlyAtTrans(c, b, GcPut(b, k, v), a);
  }

  lemma NewCachedKept(c: Core, a: Addr, d: Data, access: int, within: bool, forcePin: bool, forceCache: bool, t: int,
                      t': int)
    requires AgreeAt(c, t, a) && a !in c.data && 0 <= t < d.storeTs < access <= t'
    ensures Kept(c, NewCached(c, c, a, d, access, within, forcePin, forceCache), a, t')
    ensures NewCached(c, c, a, d, access, within, forcePin, forceCache).Ok?
  {
    hide OnlyAt, AgreeAt, DataPut, AccessPut, PinIn, CacheIn;
    var b1 := DataPut(c, a, d);
    var b2 := AccessPut(b1, a, access);
    DataWrites(c, a, d);
    AccessWrites(b1, a, access);
    OnlyAtTrans(c, b1, b2, a);
    if !forceCache && (within || forcePin) {
      NewReserved(c, a, d, access, t, t');
      PinOnlyAt(c, c, b2, a);
    } else {
      NewCollectable(c, a, d, access, t, t');
      CacheOnlyAt(c, c, b2, a, access, d);
    }
  }

  lemma NewKept(c: Core, a: Addr, d: Data, access: int, within: bool, mode: PutMode, t: int, t': int)
    requires AgreeAt(c, t, a) && a !in c.data && 0 <= t < d.storeTs < access <= t'
    ensures Kept(c, NewIn(c, c, a, d, access, within, mode), a, t')
    ensures NewIn(c, c, a, d, access, within, mode).Ok?
  {
    hide OnlyAt, AgreeAt, NewUpload, NewCached, PinIn;
    match mode {
      case PutUpload => NewUploadKept(c, a, d, t, t');
      case PutUploadPin => NewPinKept(c, a, d, t, t');
      case _ => NewCachedKept(c, a, d, access, within, mode == PutRequestPin, mode == PutRequestCache, t, t');
    }
  }

  /** Reading the database instead of the batch makes no difference for an address not touched yet. */
  lemma NewReadsAgree(db: Core, b: Core, a: Addr, d: Data, access: int, within: bool, mode: PutMode)
    requires SameAt(db, b, a) && a !in db.data
    ensures NewIn(db, b, a, d, access, within, mode) == NewIn(b, b, a, d, access, within, mode)
  {}

  // ---------------------------------------------------------------- one item of a call

  /** The stamp does not make the put replace an earlier chunk. */
  predicate NoReplacement(db: DB, item: Item) {
    var k := StampKey(item.batch, item.index);
    item.addr in db.core.data || k !in db.postageIndex || item.immutable || item.stampTs <= db.postageIndex[k].stampTs
  }

  lemma AbsentToo(db: Core, b: Core, a: Addr)
    requires SameAt(db, b, a) && a !in db.data
    ensures a !in b.data
  {}

  // ---------------------------------------------------------------- bin ids

  /** Chunks and pull entries carry bin ids up to their bin's counter, and pull entries sit in their address's bin. */
  ghost predicate Binned(db: DB, ids: map<nat, nat>) {
    && (forall a :: a in db.core.data ==> db.core.data[a].binID <= Counter(ids, db.po(a)))
    && (forall k :: k in db.pull ==> k.binID <= Counter(ids, k.bin) && db.po(db.pull[k]) == k.bin)
  }

  /** Counters only grow. */
  ghost predicate Grows(ids: map<nat, nat>, ids': map<nat, nat>) {
    forall bin :: Counter(ids, bin) <= Counter(ids', bin)
  }

  lemma BinnedGrows(db: DB, ids: map<nat, nat>, ids': map<nat, nat>)
    requires Binned(db, ids) && Grows(ids, ids')
    ensures Binned(db, ids')
  {}

  lemma NextIsNext(db: DB, ids: map<nat, nat>, bin: nat)
    ensures NextBinID(db, ids, bin) == Counter(db.binIDs + ids, bin) + 1
    ensures Grows(db.binIDs + ids, db.binIDs + ids[bin := NextBinID(db, ids, bin)])
    ensures Counter(db.binIDs + ids[bin := NextBinID(db, ids, bin)], bin) == NextBinID(db, ids, bin)
  {}

  /** data entries of the batch after a step: as before, minus removals, plus at most the new chunk. */
  ghost predicate DataFrom(c: Core, d: Core, a: Addr, binID: nat) {
    forall x :: x in d.data ==> (x in c.data && d.data[x] == c.data[x]) || (x == a && d.data[x].binID == binID)
  }

  lemma NewDataFrom(db: Core, b: Core, a: Addr, d: Data, access: int, within: bool, mode: PutMode)
    ensures NewIn(db, b, a, d, access, within, mode).Ok? ==>
              DataFrom(b, NewIn(db, b, a, d, access, within, mode).b, a, d.binID)
  {}

  /** Pull entries and chunks that were not there before carry ids above every id their bin had given. */
  ghost predicate NewAbove(db: DB, b: DB) {
    && (forall k :: k in b.pull ==> (k in db.pull && b.pull[k] == db.pull[k]) || k.binID > Counter(db.binIDs, k.bin))
    && (forall x :: x in b.core.data ==>
          || (x in db.core.data && b.core.data[x] == db.core.data[x])
          || b.core.data[x].binID > Counter(db.binIDs, db.po(x)))
  }

  /** Everything put promises about bin ids, for the batch b with counters ids. */
  ghost predicate BinsKept(db: DB, b: DB, ids: map<nat, nat>) {
    b.po == db.po && Binned(b, db.binIDs + ids) && Grows(db.binIDs, db.binIDs + ids) && NewAbove(db, b)
  }

  lemma StoreBins(db: DB, b: DB, ids: map<nat, nat>, item: Item, mode: PutMode, change: int, now: Now)
    requires BinsKept(db, b, ids)
    ensures var s := StoreIn(db, b, ids, item, mode, change, now); s.PutOk? ==> BinsKept(db, s.b, s.ids)
  {
    var a, bin := item.addr, db.po(item.addr);
    var id := NextBinID(db, ids, bin);
    var d := Data(now.store, id, item.batch, item.index, item.stampTs);
    NextIsNext(db, ids, bin);
    NewDataFrom(db.core, b.core, a, d, now.access, bin >= item.radius, mode);
    var s := StoreIn(db, b, ids, item, mode, change, now);
    hide NewIn, NextBinID;
    if s.PutOk? {
      assert DataFrom(b.core, s.b.core, a, id) && s.ids == ids[bin := id] && s.b.po == b.po;
      assert s.b.pull == b.pull || s.b.pull == b.pull[PullKey(bin, id) := a];
      hide StoreIn, DataFrom;
      BinsNew(db, b, s.b, ids, a, bin, id);
    }
  }

  lemma BinsNew(db: DB, b: DB, b': DB, ids: map<nat, nat>, a: Addr, bin: nat, id: nat)
    requires BinsKept(db, b, ids) && b'.po == b.po && bin == b.po(a) && id == Counter(db.binIDs + ids, bin) + 1
    requires Grows(db.binIDs + ids, db.binIDs + ids[bin := id]) && Counter(db.binIDs + ids[bin := id], bin) == id
    requires DataFrom(b.core, b'.core, a, id)
    requires b'.pull == b.pull || b'.pull == b.pull[PullKey(bin, id) := a]
    ensures BinsKept(db, b', ids[bin := id])
  {
    var ids' := db.binIDs + ids[bin := id];
    BinnedGrows(b, db.binIDs + ids, ids');
    BinnedNew(b, b', ids', a, bin, id);
    hide Binned, DataFrom;
    assert Grows(db.binIDs, ids') by {
      forall x ensures Counter(db.binIDs, x) <= Counter(ids', x) {
        assert Counter(db.binIDs, x) <= Counter(db.binIDs + ids, x) <= Counter(ids', x);
      }
    }
    assert Counter(db.binIDs, bin) <= Counter(db.binIDs + ids, bin);
    hide Grows, Counter;
  }

  lemma NotStoredBins(db: DB, b: DB, ids: map<nat, nat>, item: Item, mode: PutMode, existed: bool)
    requires BinsKept(db, b, ids)
    ensures var s := NotStoredIn(db, b, ids, item, mode, existed); s.PutOk? ==> BinsKept(db, s.b, s.ids)
  {
    hide NotStoredIn;
    NotStoredFrame(db, b, ids, item, mode, existed);
  }

  lemma NotStoredFrame(db: DB, b: DB, ids: map<nat, nat>, item: Item, mode: PutMode, existed: bool)
    ensures var s := NotStoredIn(db, b, ids, item, mode, existed);
      s.PutOk? ==> s.b.core.data == b.core.data && s.b.pull == b.pull && s.ids == ids && s.b.po == b.po
  {}

  /** Replacing an earlier chunk only takes entries away. */
  lemma CollisionBins(db: DB, b: DB, ids: map<nat, nat>, item: Item)
    requires BinsKept(db, b, ids)
    ensures var col := CollisionIn(db, b, item); col.Replaced? ==> BinsKept(db, col.b, ids)
  {
    hide CollisionIn, Grows;
    CollisionFrame(db, b, item);
  }

  lemma CollisionFrame(db: DB, b: DB, item: Item)
    ensures var col := CollisionIn(db, b, item);
      col.Replaced? ==>
        && col.b.po == b.po && (forall k :: k in col.b.pull ==> k in b.pull && col.b.pull[k] == b.pull[k])
        && (forall x :: x in col.b.core.data ==> x in b.core.data && col.b.core.data[x] == b.core.data[x])
  {
    hide PullKeysOf, ChunkKeysOf;
  }

  lemma PutBinned(db: DB, b: DB, ids: map<nat, nat>, item: Item, mode: PutMode, now: Now)
    requires BinsKept(db, b, ids)
    ensures var s := PutIn(db, b, ids, item, mode, now); s.PutOk? ==> BinsKept(db, s.b, s.ids)
  {
    hide BinsKept, StoreIn, NotStoredIn, CollisionIn;
    CollisionBins(db, b, ids, item);
    StoreBins(db, b, ids, item, mode, 0, now);
    var col := CollisionIn(db, b, item);
    if col.Replaced? { StoreBins(db, col.b, ids, item, mode, col.change, now); }
    NotStoredBins(db, b, ids, item, mode, true);
    NotStoredBins(db, b, ids, item, mode, false);
  }

  lemma BinnedNew(b: DB, b': DB, ids: map<nat, nat>, a: Addr, bin: nat, id: nat)
    requires Binned(b, ids) && b'.po == b.po && bin == b.po(a) && id <= Counter(ids, bin)
    requires DataFrom(b.core, b'.core, a, id)
    requires b'.pull == b.pull || b'.pull == b.pull[PullKey(bin, id) := a]
    ensures Binned(b', ids)
  {}

  // ---------------------------------------------------------------- the whole call

  function Addrs(items: seq<Item>): seq<Addr> {
    seq(|items|, i requires 0 <= i < |items| => items[i].addr)
  }

  lemma {:induction false} PutAllBinned(db: DB, mode: PutMode, items: seq<Item>, times: seq<Now>)
    requires Binned(db, db.binIDs) && |times| == |items|
    ensures var r := PutAll(db, mode, items, times);
            r.PutOk? ==> BinsKept(db, r.b, r.ids)
    decreases |items|
  {
    hide PutIn;
    if items == [] {
      assert db.binIDs + map[] == db.binIDs;
    } else {
      hide BinsKept;
      var n := |items| - 1;
      PutAllBinned(db, mode, items[..n], times[..n]);
      var r := PutAll(db, mode, items[..n], times[..n]);
      if r.PutOk? && !Contains(items[..n], items[n].addr) {
        PutBinned(db, r.b, r.ids, items[n], mode, times[n]);
        hide PutAll;
      }
    }
  }

  /**
  Over any put, bin counters never decrease, whatever is stored or listed stays within them, and every
  entry added to the pull index lies above all ids its bin had issued before.
  */
  lemma PutBins(db: DB, mode: PutMode, items: seq<Item>, times: seq<Now>)
    requires Binned(db, db.binIDs) && |times| == |items|
    ensures var db' := Put(db, mode, items, times);
            Binned(db', db'.binIDs) && Grows(db.binIDs, db'.binIDs) && db'.po == db.po && NewAbove(db, db')
  {
    hide PutAll;
    PutAllBinned(db, mode, items, times);
  }
}
