/** The chunk entries of the batches over whole runs: one for each stored chunk, under the batch of its stamp. */
module LocalstoreFiled {
  import opened Localstore
  import opened LocalstoreInv
  import opened LocalstoreBatch
  import opened LocalstorePut
  import opened LocalstorePutInv
  import opened LocalstoreRepeat
  import opened LocalstoreReplace
  import opened LocalstoreHeld
  import opened LocalstoreGc
  import opened LocalstorePins
  import opened LocalstoreEntries
  import opened LocalstoreStamps
  import opened LocalstoreEffects
  import opened LocalstoreListed

  /** The chunk entries are those of the stored chunks. */
  ghost predicate Filed(db: DB) {
    && (forall k :: k in db.postageChunks ==> k.addr in db.core.data && k == ChunkKeyOf(db, k.addr))
    && (forall a :: a in db.core.data ==> ChunkKeyOf(db, a) in db.postageChunks)
  }

  /** What the gc index says about a chunk's stamp: its batch, and its index unless that was lost in setUnpin. */
  predicate Describes(v: GcValue, d: Data) { v.batch == d.batch && (v.index == d.index || v.index == NO_INDEX) }

  ghost predicate Stamped(c: Core) {
    forall k :: k in c.gc && k.addr in c.data ==> Describes(c.gc[k], c.data[k.addr])
  }

  // ---------------------------------------------------------------- values in the gc index

  /** b comes from db by steps that only take data away. */
  ghost predicate From(db: Core, b: Core) { forall x :: x in b.data ==> x in db.data && b.data[x] == db.data[x] }

  lemma PinStamped(db: Core, b: Core, a: Addr)
    requires Stamped(b)
    ensures Stamped(PinIn(db, b, a).b) && PinIn(db, b, a).b.data == b.data
  {}

  lemma RemoveStamped(db: Core, b: Core, p: Addr)
    requires Stamped(b)
    ensures Stamped(RemoveIn(db, b, p).b) && From(b, RemoveIn(db, b, p).b)
  {}

  lemma UnpinStamped(db: Core, b: Core, a: Addr, now: Now)
    requires Stamped(b) && From(db, b)
    ensures Stamped(UnpinIn(db, b, a, now).b) && UnpinIn(db, b, a, now).b.data == b.data
  {}

  lemma SyncStamped(db: Core, b: Core, a: Addr, now: Now)
    requires Stamped(b)
    ensures Stamped(SyncIn(db, b, a, now).b) && SyncIn(db, b, a, now).b.data == b.data
  {
    var b1 := PushDelete(b, PushKey(if a in db.data then db.data[a].storeTs else 0, a));
    assert Stamped(b1) && Stamped(AccessPut(b1, a, now.access));
    PinStamped(db, b1, a);
    PinStamped(db, AccessPut(b1, a, now.access), a);
    hide PinIn, Stamped;
  }

  lemma SetStamped(db: Core, b: Core, mode: SetMode, a: Addr, now: Now)
    requires Stamped(b) && From(db, b)
    ensures Stamped(SetIn(db, b, mode, a, now).b) && From(db, SetIn(db, b, mode, a, now).b)
  {
    hide PinIn, RemoveIn, SyncIn, UnpinIn, Stamped;
    PinStamped(db, b, a);
    RemoveStamped(db, b, a);
    UnpinStamped(db, b, a, now);
    SyncStamped(db, b, a, now);
  }

  lemma {:induction false} SetAllStamped(db: Core, mode: SetMode, addrs: seq<Addr>, times: seq<Now>)
    requires Stamped(db) && |times| == |addrs|
    ensures Stamped(SetAll(db, mode, addrs, times).b) && From(db, SetAll(db, mode, addrs, times).b)
    decreases |addrs|
  {
    hide SetIn, Stamped;
    if addrs != [] {
      hide From;
      var n := |addrs| - 1;
      SetAllStamped(db, mode, addrs[..n], times[..n]);
      SetStamped(db, SetAll(db, mode, addrs[..n], times[..n]).b, mode, addrs[n], times[n]);
    }
  }

  lemma {:induction false} UnpinAllStamped(db: Core, addrs: seq<Addr>, times: seq<Now>)
    requires Stamped(db) && |times| == |addrs|
    ensures Stamped(UnpinAll(db, addrs, times).0) && From(db, UnpinAll(db, addrs, times).0)
    decreases |addrs|
  {
    hide UnpinIn, Stamped;
    if addrs != [] {
      hide From;
      var n := |addrs| - 1;
      UnpinAllStamped(db, addrs[..n], times[..n]);
      SetStamped(db, UnpinAll(db, addrs[..n], times[..n]).0, SetUnpin, addrs[n], times[n]);
    }
  }

  lemma UpdateStamped(c: Core, a: Addr, binID: nat, v: GcValue, now: int)
    requires Stamped(c) && (a in c.data ==> Describes(v, c.data[a]))
    ensures Stamped(UpdateGC(c, a, binID, v, now))
  {}

  lemma {:induction false} CollectAllStamped(c: Core, keys: seq<GcKey>)
    requires Stamped(c)
    ensures Stamped(CollectAll(c, keys))
    decreases |keys|
  {
    if keys != [] { CollectAllStamped(c, keys[..|keys| - 1]); }
  }

  lemma NewStamped(db: Core, b: Core, a: Addr, d: Data, access: int, within: bool, mode: PutMode)
    requires Stamped(b) && forall k :: k in b.gc ==> k.addr != a
    ensures Stamped(NewIn(db, b, a, d, access, within, mode).b)
  {
    var uploaded, accessed := NewUpload(b, a, d), AccessPut(DataPut(b, a, d), a, access);
    assert Stamped(uploaded) && Stamped(accessed);
    PinStamped(db, uploaded, a);
    PinStamped(db, accessed, a);
    CacheStamped(db, accessed, a, access, d);
    hide PinIn, CacheIn, Stamped, NewUpload;
  }

  lemma CacheStamped(db: Core, b: Core, a: Addr, access: int, d: Data)
    requires Stamped(b) && a in b.data && b.data[a] == d
    ensures Stamped(CacheIn(db, b, a, access, d).b)
  {}

  lemma NoneCollectable(db: Core, b: Core, a: Addr, t: int)
    requires AgreeAt(db, t, a) && a !in db.data && SameAt(db, b, a)
    ensures forall k :: k in b.gc ==> k.addr != a
  {}

  lemma StoreStamped(db: DB, b: DB, ids: map<nat, nat>, item: Item, mode: PutMode, change: int, now: Now, t: int)
    requires Stamped(b.core) && AgreeAt(db.core, t, item.addr) && item.addr !in db.core.data
    requires SameAt(db.core, b.core, item.addr)
    ensures var s := StoreIn(db, b, ids, item, mode, change, now); s.PutOk? ==> Stamped(s.b.core)
  {
    hide NewIn, SameAt, AgreeAt, NextBinID, Stamped;
    var bin := db.po(item.addr);
    var d := Data(now.store, NextBinID(db, ids, bin), item.batch, item.index, item.stampTs);
    NoneCollectable(db.core, b.core, item.addr, t);
    NewStamped(db.core, b.core, item.addr, d, now.access, bin >= item.radius, mode);
  }

  lemma NotStoredStamped(db: DB, b: DB, ids: map<nat, nat>, item: Item, mode: PutMode)
    requires Stamped(b.core)
    ensures forall existed :: var s := NotStoredIn(db, b, ids, item, mode, existed); s.PutOk? ==> Stamped(s.b.core)
  {
    PinStamped(db.core, b.core, item.addr);
    hide PinIn, Stamped;
  }

  lemma ItemStamped(db: DB, b: DB, ids: map<nat, nat>, item: Item, mode: PutMode, now: Now, t: int)
    requires Stamped(b.core) && AgreeAt(db.core, t, item.addr)
    requires item.addr !in db.core.data ==> SameAt(db.core, b.core, item.addr)
    ensures var s := PutIn(db, b, ids, item, mode, now); s.PutOk? ==> Stamped(s.b.core)
  {
    hide PutIn, StoreIn, CollisionIn, RemoveIn, IsNew, SameAt, AgreeAt, Stamped, NotStoredIn;
    if !IsNew(db, item) {
      PutSkips(db, b, ids, item, mode, now);
      NotStoredStamped(db, b, ids, item, mode);
    } else {
      NewIsAbsent(db, item);
      if NoReplacement(db, item) {
        PutStores(db, b, ids, item, mode, now);
        StoreStamped(db, b, ids, item, mode, 0, now, t);
      } else {
        PutReplaces(db, b, ids, item, mode, now);
        CollisionTakes(db, b, item);
        var col := CollisionIn(db, b, item);
        if col.Replaced? {
          var p := ReplacedBy(db, item).value;
          InTheWay(db, b, col.b, p);
          RemoveStamped(db.core, b.core, p);
          RemoveElsewhere(db.core, b.core, p, item.addr);
          SameTrans(db.core, b.core, col.b.core, item.addr);
          StoreStamped(db, col.b, ids, item, mode, col.change, now, t);
        }
      }
    }
  }

  lemma {:induction false} CallStamped(db: DB, mode: PutMode, items: seq<Item>, times: seq<Now>, t: int)
    requires Stamped(db.core) && Agree(db.core, t) && |times| == |items| && Ticking(times, t)
    ensures var r := PutAll(db, mode, items, times); r.PutOk? ==> Stamped(r.b.core)
    decreases |items|
  {
    hide PutIn, Stamped, First, AgreeAt, SameAt;
    if items != [] {
      hide PutAll;
      var n := |items| - 1;
      LastTick(times, t, n);
      CallStamped(db, mode, items[..n], times[..n], t);
      PutNext(db, mode, items, times);
      var r := PutAll(db, mode, items[..n], times[..n]);
      if r.PutOk? && First(items, n) {
        var a := items[n].addr;
        assert AgreeAt(db.core, t, a);
        Addresses(items);
        if a !in db.core.data { NotYet(db, mode, items[..n], times[..n], t, a); }
        ItemStamped(db, r.b, r.ids, items[n], mode, times[n], t);
      }
    }
  }

  // ---------------------------------------------------------------- stamps of cached chunks

  /** A collectable chunk's entry in the gc index carries the stamp of the item it came with. */
  ghost predicate CarriesStamp(c: Core, item: Item) {
    forall k :: k in c.gc && k.addr == item.addr ==> c.gc[k] == GcValue(item.batch, item.index)
  }

  /** Nothing about the chunk is new in the gc index. */
  ghost predicate SameValues(c: Core, d: Core, x: Addr) {
    forall k :: k in d.gc && k.addr == x ==> k in c.gc && d.gc[k] == c.gc[k]
  }

  lemma NewCarries(db: Core, b: Core, item: Item, d: Data, access: int, within: bool, mode: PutMode, x: Addr)
    requires d.batch == item.batch && d.index == item.index && (forall k :: k in b.gc ==> k.addr != item.addr)
    ensures var s := NewIn(db, b, item.addr, d, access, within, mode);
      s.Ok? ==> CarriesStamp(s.b, item) && (x != item.addr ==> SameValues(b, s.b, x))
  {}

  lemma StoreCarries(db: DB, b: DB, ids: map<nat, nat>, item: Item, mode: PutMode, change: int, now: Now, t: int,
                     x: Addr)
    requires AgreeAt(db.core, t, item.addr) && item.addr !in db.core.data && SameAt(db.core, b.core, item.addr)
    ensures var s := StoreIn(db, b, ids, item, mode, change, now);
      s.PutOk? ==> CarriesStamp(s.b.core, item) && (x != item.addr ==> SameValues(b.core, s.b.core, x))
  {
    hide NewIn, SameAt, AgreeAt, NextBinID, CarriesStamp, SameValues;
    var bin := db.po(item.addr);
    var d := Data(now.store, NextBinID(db, ids, bin), item.batch, item.index, item.stampTs);
    NoneCollectable(db.core, b.core, item.addr, t);
    NewCarries(db.core, b.core, item, d, now.access, bin >= item.radius, mode, x);
  }

  lemma RemoveAddsNone(db: Core, b: Core, p: Addr, x: Addr)
    ensures SameValues(b, RemoveIn(db, b, p).b, x)
  {}

  lemma NotStoredAddsNone(db: DB, b: DB, ids: map<nat, nat>, item: Item, mode: PutMode, x: Addr)
    ensures forall existed :: var s := NotStoredIn(db, b, ids, item, mode, existed);
              s.PutOk? ==> SameValues(b.core, s.b.core, x)
  {}

  lemma ItemCarries(db: DB, b: DB, ids: map<nat, nat>, item: Item, mode: PutMode, now: Now, t: int, x: Addr)
    requires AgreeAt(db.core, t, item.addr)
    requires item.addr !in db.core.data ==> SameAt(db.core, b.core, item.addr)
    ensures var s := PutIn(db, b, ids, item, mode, now);
      s.PutOk? ==>
        (IsNew(db, item) ==> CarriesStamp(s.b.core, item)) && (x != item.addr ==> SameValues(b.core, s.b.core, x))
  {
    hide PutIn, StoreIn, CollisionIn, RemoveIn, IsNew, SameAt, AgreeAt, NotStoredIn, CarriesStamp, SameValues;
    if !IsNew(db, item) {
      PutSkips(db, b, ids, item, mode, now);
      NotStoredAddsNone(db, b, ids, item, mode, x);
    } else {
      NewIsAbsent(db, item);
      if NoReplacement(db, item) {
        PutStores(db, b, ids, item, mode, now);
        StoreCarries(db, b, ids, item, mode, 0, now, t, x);
      } else {
        PutReplaces(db, b, ids, item, mode, now);
        CollisionTakes(db, b, item);
        var col := CollisionIn(db, b, item);
        if col.Replaced? {
          var p := ReplacedBy(db, item).value;
          InTheWay(db, b, col.b, p);
          RemoveAddsNone(db.core, b.core, p, x);
          RemoveElsewhere(db.core, b.core, p, item.addr);
          SameTrans(db.core, b.core, col.b.core, item.addr);
          StoreCarries(db, col.b, ids, item, mode, col.change, now, t, x);
          var s := StoreIn(db, col.b, ids, item, mode, col.change, now);
          if s.PutOk? && x != item.addr { ValuesTrans(b.core, col.b.core, s.b.core, x); }
        }
      }
    }
  }

  lemma ValuesTrans(c: Core, d: Core, e: Core, x: Addr)
    requires SameValues(c, d, x) && SameValues(d, e, x)
    ensures SameValues(c, e, x)
  {}

  lemma StillCarries(c: Core, d: Core, item: Item)
    requires CarriesStamp(c, item) && SameValues(c, d, item.addr)
    ensures CarriesStamp(d, item)
  {}

  lemma {:induction false} AllCarry(db: DB, mode: PutMode, items: seq<Item>, times: seq<Now>, t: int, i: nat)
    requires Agree(db.core, t) && |times| == |items| && Ticking(times, t) && i < |items| && Stores(db, items, i)
    ensures var r := PutAll(db, mode, items, times); r.PutOk? ==> CarriesStamp(r.b.core, items[i])
    decreases |items|
  {
    hide PutIn, IsNew, PutAll, SameAt, AgreeAt, First, AddrSet, CarriesStamp, SameValues;
    var n := |items| - 1;
    var a := items[n].addr;
    var r := PutAll(db, mode, items[..n], times[..n]);
    LastTick(times, t, n);
    PutNext(db, mode, items, times);
    if i < n {
      StoresPrefix(db, items, n, i);
      AllCarry(db, mode, items[..n], times[..n], t, i);
      NotAgain(items, i, n);
    }
    if r.PutOk? && First(items, n) {
      assert AgreeAt(db.core, t, a);
      Addresses(items);
      if a !in db.core.data { NotYet(db, mode, items[..n], times[..n], t, a); }
      ItemCarries(db, r.b, r.ids, items[n], mode, times[n], t, items[i].addr);
      var s := PutIn(db, r.b, r.ids, items[n], mode, times[n]);
      if i < n && s.PutOk? { StillCarries(r.b.core, s.b.core, items[i]); }
    }
  }

  /** After a put that succeeds, the gc index has every cached chunk with the batch and index of its stamp. */
  lemma CachedWithStamp(db: DB, mode: PutMode, items: seq<Item>, times: seq<Now>, t: int, i: nat)
    requires Inv(db, t) && |times| == |items| && Ticking(times, t) && PutAll(db, mode, items, times).PutOk?
    requires i < |items| && Stores(db, items, i) && Cached(db, mode, items[i])
    ensures var c := Put(db, mode, items, times).core;
      Collectable(c, items[i].addr) && c.gc[KeyOf(c, items[i].addr)] == GcValue(items[i].batch, items[i].index)
  {
    InvAgrees(db, t);
    hide PutAll, Stores, Cached, AgreeAt;
    AllPlaced(db, mode, items, times, t, i);
    AllCarry(db, mode, items, times, t, i);
  }

  // ---------------------------------------------------------------- put

  ghost predicate FiledRight(db: DB) { Filed(db) && Stamped(db.core) }

  lemma PutFiled(db: DB, mode: PutMode, items: seq<Item>, times: seq<Now>, t: int)
    requires FiledRight(db) && Indexed(db) && Inv(db, t) && |times| == |items| && Ticking(times, t)
    ensures FiledRight(Put(db, mode, items, times))
  {
    hide Put, PutAll, Lost, Stored, Binned, AgreeAt, Stamped, ChunksAfter, OwnIds;
    PutIs(db, mode, items, times);
    if PutAll(db, mode, items, times).PutOk? {
      CallStamped(db, mode, items, times, t);
      PutData(db, mode, items, times);
      HeldAfter(db, mode, items, times);
      CallChunks(db, mode, items, times);
      PutFiledAll(db, PutAll(db, mode, items, times).b, Lost(db, items), Stored(db, items));
    }
  }

  lemma PutIs(db: DB, mode: PutMode, items: seq<Item>, times: seq<Now>)
    requires |times| == |items|
    ensures var r, db' := PutAll(db, mode, items, times), Put(db, mode, items, times);
      if r.PutErr? then db' == db
      else db'.po == r.b.po && db'.core == r.b.core && db'.postageChunks == r.b.postageChunks && db'.pull == r.b.pull
  {
    hide PutAll;
  }

  lemma PutFiledAll(db: DB, b: DB, lost: set<Addr>, stored: set<Addr>)
    requires Filed(db) && ChunksAfter(db, b, lost, stored) && b.core.data.Keys == db.core.data.Keys - lost + stored
    requires forall x :: x in db.core.data && x !in lost ==> x in b.core.data && b.core.data[x] == db.core.data[x]
    ensures Filed(b)
  {
    forall a | a in b.core.data ensures ChunkKeyOf(b, a) in b.postageChunks {
      if a !in stored { assert a in db.core.data && a !in lost && ChunkKeyOf(b, a) == ChunkKeyOf(db, a); }
    }
  }

  // ---------------------------------------------------------------- the other steps

  /** Chunks are taken away together with their entries. */
  ghost predicate Unfiles(db: DB, db': DB, gone: set<Addr>) {
    && db'.po == db.po && db'.core.data == db.core.data - gone
    && db'.postageChunks == db.postageChunks - set a | a in gone && a in db.core.data :: ChunkKeyOf(db, a)
  }

  lemma UnfilesKeeps(db: DB, db': DB, gone: set<Addr>)
    requires Filed(db) && Unfiles(db, db', gone)
    ensures Filed(db')
  {}

  lemma UnfilesNothing(db: DB, db': DB)
    requires Filed(db) && db'.po == db.po && db'.core.data == db.core.data && db'.postageChunks == db.postageChunks
    ensures Filed(db')
  {}

  lemma SetFiled(db: DB, mode: SetMode, addrs: seq<Addr>, times: seq<Now>)
    requires FiledRight(db) && |times| == |addrs|
    ensures FiledRight(Set(db, mode, addrs, times))
  {
    hide SetAll, PullKeysOf, ChunkKeysOf, Filed, Stamped, Unfiles;
    SetAllStamped(db.core, mode, addrs, times);
    SetUnfiles(db, mode, addrs, times);
    UnfilesKeeps(db, Set(db, mode, addrs, times),
                 if mode == SetRemove && SetAll(db.core, mode, addrs, times).Ok? then set a | a in addrs else {});
  }

  /** A set call that removes takes the chunks with their chunk entries; any other takes nothing. */
  lemma SetUnfiles(db: DB, mode: SetMode, addrs: seq<Addr>, times: seq<Now>)
    requires |times| == |addrs|
    ensures var gone := if mode == SetRemove && SetAll(db.core, mode, addrs, times).Ok? then set a | a in addrs else {};
      Unfiles(db, Set(db, mode, addrs, times), gone)
  {
    hide SetAll, PullKeysOf, ChunkKeysOf;
    SetAllData(db.core, mode, addrs, times);
    if mode == SetRemove && SetAll(db.core, mode, addrs, times).Ok? {
      EntriesOf(db, addrs);
    } else {
      assert db.core.data - {} == db.core.data;
    }
  }

  lemma EntriesOf(db: DB, addrs: seq<Addr>)
    ensures ChunkKeysOf(db, addrs) == set a | a in (set a | a in addrs) && a in db.core.data :: ChunkKeyOf(db, a)
  {}

  lemma CommitFiled(s: Store, t: int)
    requires FiledRight(s.db) && StoreInv(s, t)
    ensures FiledRight(Commit(s).db)
  {
    var keys := Clean(s.candidates, s.dirty);
    hide StoreInv, Filed, Stamped, Commit;
    CollectAllData(s.db.core, keys);
    CollectAllStamped(s.db.core, keys);
    CommitDrops(s, t);
    CommitEntries(s, keys, t);
    CommitCore(s);
    UnfilesKeeps(s.db, Commit(s).db, AddrsOf(keys));
  }

  lemma CommitCore(s: Store)
    ensures Commit(s).db.core == CollectAll(s.db.core, Clean(s.candidates, s.dirty)) && Commit(s).db.po == s.db.po
  {
    hide Clean, CollectAll, MinusUint64;
  }

  lemma CommitEntries(s: Store, keys: seq<GcKey>, t: int)
    requires keys == Clean(s.candidates, s.dirty) && StoreInv(s, t) && Stamped(s.db.core)
    ensures Commit(s).db.postageChunks ==
              s.db.postageChunks - set a | a in AddrsOf(keys) && a in s.db.core.data :: ChunkKeyOf(s.db, a)
  {
    CleanFacts(s.candidates, s.dirty);
    hide Clean, CollectAll, MinusUint64;
    forall k | k in keys ensures StampIs(s.db.core, k) { CandidateStamp(s, k, t); }
    hide StoreInv, Stamped, StampIs, AddrsOf;
    TakenEntries(s.db, keys);
  }

  /** Everything the commit does to a store whose gc index carries the batches of its chunks. */
  lemma CommitCollects(s: Store, t: int)
    requires StoreInv(s, t) && Stamped(s.db.core)
    ensures var keys, db' := Clean(s.candidates, s.dirty), Commit(s).db;
      && (forall k :: k in s.candidates && k.addr !in s.dirty ==>
            && k.addr !in db'.core.data && k.addr !in db'.core.access
            && NotInGc(db'.core, k.addr) && k.addr !in db'.core.pin)
      && (forall x :: x !in AddrsOf(keys) ==> SameAt(s.db.core, db'.core, x))
      && Drops(s.db, db', AddrsOf(keys)) && Unfiles(s.db, db', AddrsOf(keys))
      && (forall k :: k in keys ==>
            && k in s.db.core.gc && StampKey(s.db.core.gc[k].batch, s.db.core.gc[k].index) !in db'.postageIndex)
      && (forall i :: i in s.db.postageIndex && (forall k :: k in keys && k in s.db.core.gc ==>
                        i != StampKey(s.db.core.gc[k].batch, s.db.core.gc[k].index)) ==>
            i in db'.postageIndex && db'.postageIndex[i] == s.db.postageIndex[i])
  {
    var keys, db' := Clean(s.candidates, s.dirty), Commit(s).db;
    CommitStamps(s);
    CleanFacts(s.candidates, s.dirty);
    hide Clean, Commit, CollectAll;
    CollectAllData(s.db.core, keys);
    CollectAllGc(s.db.core, keys);
    CommitDrops(s, t);
    CommitEntries(s, keys, t);
    CommitCore(s);
    forall k | k in s.candidates && k.addr !in s.dirty
      ensures k.addr !in db'.core.data && k.addr !in db'.core.access && NotInGc(db'.core, k.addr)
              && k.addr !in db'.core.pin
    {
      assert k in s.db.core.gc && AgreeAt(s.db.core, t, k.addr) && k.addr in AddrsOf(keys);
    }
    forall x | x !in AddrsOf(keys) ensures SameAt(s.db.core, db'.core, x) {
      CollectElsewhere(s.db.core, keys, x);
    }
    hide StoreInv, SameAt, NotInGc;
  }

  lemma CommitStamps(s: Store)
    ensures var keys, db' := Clean(s.candidates, s.dirty), Commit(s).db;
      && (forall k :: k in keys && k in s.db.core.gc ==>
            StampKey(s.db.core.gc[k].batch, s.db.core.gc[k].index) !in db'.postageIndex)
      && (forall i :: i in s.db.postageIndex && (forall k :: k in keys && k in s.db.core.gc ==>
                        i != StampKey(s.db.core.gc[k].batch, s.db.core.gc[k].index)) ==>
            i in db'.postageIndex && db'.postageIndex[i] == s.db.postageIndex[i])
  {
    hide Clean, CollectAll, MinusUint64;
    var keys, gc := Clean(s.candidates, s.dirty), s.db.core.gc;
    var values := set k | k in keys && k in gc :: (k, gc[k]);
    forall k | k in keys && k in gc ensures StampKey(gc[k].batch, gc[k].index) !in Commit(s).db.postageIndex {
      assert (k, gc[k]) in values;
    }
  }

  lemma {:induction false} CollectElsewhere(c: Core, keys: seq<GcKey>, x: Addr)
    requires x !in AddrsOf(keys)
    ensures SameAt(c, CollectAll(c, keys), x)
    decreases |keys|
  {
    if keys == [] {
      SameEverywhere(c);
    } else {
      hide CollectIn, SameAt;
      var n := |keys| - 1;
      assert x !in AddrsOf(keys[..n]) && keys[n].addr in AddrsOf(keys);
      CollectElsewhere(c, keys[..n], x);
      var b := CollectAll(c, keys[..n]);
      CollectOnlyAt(b, keys[n]);
      assert SameAt(b, CollectIn(b, keys[n]), x);
      SameTrans(c, b, CollectIn(b, keys[n]), x);
    }
  }

  /** The gc index has the key, with the batch of the chunk. */
  predicate StampIs(c: Core, k: GcKey) {
    k in c.gc && k.addr in c.data && c.gc[k].batch == c.data[k.addr].batch
  }

  lemma CandidateStamp(s: Store, k: GcKey, t: int)
    requires StoreInv(s, t) && Stamped(s.db.core) && k in s.candidates && k.addr !in s.dirty
    ensures StampIs(s.db.core, k)
  {
    assert AgreeAt(s.db.core, t, k.addr);
  }

  lemma TakenEntries(db: DB, keys: seq<GcKey>)
    requires forall k :: k in keys ==> StampIs(db.core, k)
    ensures var values := set k | k in keys && k in db.core.gc :: (k, db.core.gc[k]);
      (set kv | kv in values :: ChunkKey(kv.1.batch, db.po(kv.0.addr), kv.0.addr)) ==
        set a | a in AddrsOf(keys) && a in db.core.data :: ChunkKeyOf(db, a)
  {
    var gc, data := db.core.gc, db.core.data;
    var values := set k | k in keys && k in gc :: (k, gc[k]);
    var taken := set kv | kv in values :: ChunkKey(kv.1.batch, db.po(kv.0.addr), kv.0.addr);
    var gone := set a | a in AddrsOf(keys) && a in data :: ChunkKeyOf(db, a);
    forall p | p in taken ensures p in gone {
      var kv :| kv in values && p == ChunkKey(kv.1.batch, db.po(kv.0.addr), kv.0.addr);
      assert StampIs(db.core, kv.0) && kv.0.addr in AddrsOf(keys);
    }
    forall p | p in gone ensures p in taken {
      var a :| a in AddrsOf(keys) && a in data && p == ChunkKeyOf(db, a);
      var k :| k in keys && k.addr == a;
      assert StampIs(db.core, k) && (k, gc[k]) in values;
    }
  }

  /** The item given to updateGC carries the stamp of the chunk. */
  predicate Told(s: Store, op: Op) {
    op.OpUpdateGC? && op.a in s.db.core.data ==> Describes(op.v, s.db.core.data[op.a])
  }

  lemma StepFiled(s: Store, op: Op, t: int)
    requires FiledRight(s.db) && Indexed(s.db) && StoreInv(s, t) && Timed(s, op, t) && Told(s, op)
    ensures FiledRight(Do(s, op).db)
  {
    hide FiledRight, Indexed, Put, Set, Inv, Commit, UpdateGC, UnreserveBin;
    match op {
      case OpPut(mode, items, times) => PutFiled(s.db, mode, items, times, t);
      case OpSet(mode, addrs, times) => SetFiled(s.db, mode, addrs, times);
      case OpUpdateGC(a, binID, v, now) => UpdateFiled(s.db, a, binID, v, now);
      case OpUnreserve(id, bin, addrs, times) => UnreserveFiled(s.db, id, bin, addrs, times);
      case OpGcCommit => CommitFiled(s, t);
      case _ =>
    }
  }

  lemma UpdateFiled(db: DB, a: Addr, binID: nat, v: GcValue, now: int)
    requires FiledRight(db) && (a in db.core.data ==> Describes(v, db.core.data[a]))
    ensures FiledRight(db.(core := UpdateGC(db.core, a, binID, v, now)))
  {
    var db' := db.(core := UpdateGC(db.core, a, binID, v, now));
    UpdateStamped(db.core, a, binID, v, now);
    assert db'.core.data == db.core.data;
    hide UpdateGC, Filed, Stamped;
    UnfilesNothing(db, db');
  }

  lemma UnreserveFiled(db: DB, id: BatchID, bin: nat, addrs: seq<Addr>, times: seq<Now>)
    requires FiledRight(db) && |times| == |addrs|
    ensures FiledRight(UnreserveBin(db, id, bin, addrs, times))
  {
    UnpinAllData(db.core, addrs, times);
    UnpinAllStamped(db.core, addrs, times);
    hide UnpinAll, Filed, Stamped;
    UnfilesNothing(db, UnreserveBin(db, id, bin, addrs, times));
  }

  /** Over any safe run whose updates carry the stamps of their chunks. */
  lemma {:induction false} FiledAlways(states: seq<Store>, ops: seq<Op>, clocks: seq<int>, j: nat)
    requires StoreRun(states, ops, clocks) && Indexed(states[0].db) && FiledRight(states[0].db) && j <= |ops|
    requires forall i :: 0 <= i < |ops| ==> Told(states[i], ops[i])
    ensures FiledRight(states[j].db)
  {
    hide FiledRight, Indexed, StoreInv, Do, Safe, Clock, Told;
    if j > 0 {
      FiledAlways(states, ops, clocks, j - 1);
      IndexedAlways(states, ops, clocks, j - 1);
      IndexesAgree(states, ops, clocks, j - 1);
      StepFiled(states[j - 1], ops[j - 1], clocks[j - 1]);
      assert states[j] == Do(states[j - 1], ops[j - 1]);
    }
  }
}
