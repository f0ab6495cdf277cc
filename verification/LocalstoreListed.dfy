/** The pull index over whole runs: it lists stored chunks at their ids, and a chunk once listed stays so. */
module LocalstoreListed {
  import opened Localstore
  import opened LocalstoreInv
  import opened LocalstorePut
  import opened LocalstorePutInv
  import opened LocalstoreReplace
  import opened LocalstoreHeld
  import opened LocalstoreGc
  import opened LocalstoreEntries
  import opened LocalstoreStamps
  import opened LocalstoreEffects

  /** No two chunks of a bin share an id. */
  ghost predicate OwnIds(db: DB) {
    forall x, y :: x in db.core.data && y in db.core.data && x != y ==> PullKeyOf(db, x) != PullKeyOf(db, y)
  }

  /** Entries of the pull index are of stored chunks, at their ids. */
  ghost predicate ListsStored(db: DB) {
    forall k :: k in db.pull ==> db.pull[k] in db.core.data && k == PullKeyOf(db, db.pull[k])
  }

  ghost predicate Indexed(db: DB) { OwnIds(db) && ListsStored(db) && Binned(db, db.binIDs) }

  /** What a step may do: keep the index, and keep on listing every listed chunk that is still stored. */
  ghost predicate KeepsListed(db: DB, db': DB) {
    && db'.po == db.po && Indexed(db')
    && forall a :: Listed(db, a) && a in db'.core.data ==> Listed(db', a) && db'.core.data[a] == db.core.data[a]
  }

  // ---------------------------------------------------------------- put

  lemma WriteOwn(db: DB, b: DB, b': DB, mode: PutMode, item: Item, id: nat)
    requires OwnIds(b) && b.po == db.po && Writes(db, b, b', mode, item, id)
    requires forall x :: x in b.core.data && b.po(x) == b.po(item.addr) ==> b.core.data[x].binID < id
    ensures OwnIds(b')
  {}

  lemma TakeOwn(db: DB, b: DB, b': DB, p: Addr)
    requires OwnIds(b) && TakesAway(db, b, b', p)
    ensures OwnIds(b')
  {}

  lemma StoreOwn(db: DB, b: DB, ids: map<nat, nat>, item: Item, mode: PutMode, change: int, now: Now)
    requires OwnIds(b) && BinsKept(db, b, ids)
    ensures var s := StoreIn(db, b, ids, item, mode, change, now); s.PutOk? ==> OwnIds(s.b)
  {
    var bin := db.po(item.addr);
    hide StoreIn, OwnIds, NextBinID, Writes, Counter, Grows, NewAbove;
    NextIsNext(db, ids, bin);
    StoreWrites(db, b, ids, item, mode, change, now);
    var s := StoreIn(db, b, ids, item, mode, change, now);
    if s.PutOk? { WriteOwn(db, b, s.b, mode, item, NextBinID(db, ids, bin)); }
  }

  lemma ItemOwn(db: DB, b: DB, ids: map<nat, nat>, item: Item, mode: PutMode, now: Now)
    requires OwnIds(b) && BinsKept(db, b, ids)
    ensures var s := PutIn(db, b, ids, item, mode, now); s.PutOk? ==> OwnIds(s.b)
  {
    hide PutIn, StoreIn, CollisionIn, RemoveIn, IsNew, NotStoredIn, OwnIds, BinsKept, TakesAway;
    if !IsNew(db, item) {
      PutSkips(db, b, ids, item, mode, now);
      NotStoredOwn(db, b, ids, item, mode);
    } else if NoReplacement(db, item) {
      PutStores(db, b, ids, item, mode, now);
      StoreOwn(db, b, ids, item, mode, 0, now);
    } else {
      PutReplaces(db, b, ids, item, mode, now);
      NewIsAbsent(db, item);
      CollisionTakes(db, b, item);
      CollisionBins(db, b, ids, item);
      var col := CollisionIn(db, b, item);
      if col.Replaced? {
        TakeOwn(db, b, col.b, ReplacedBy(db, item).value);
        StoreOwn(db, col.b, ids, item, mode, col.change, now);
      }
    }
  }

  lemma NotStoredOwn(db: DB, b: DB, ids: map<nat, nat>, item: Item, mode: PutMode)
    requires OwnIds(b)
    ensures forall existed :: var s := NotStoredIn(db, b, ids, item, mode, existed); s.PutOk? ==> OwnIds(s.b)
  {
    NotStoredStamps(db, b, ids, item, mode);
    hide NotStoredIn;
  }

  lemma {:induction false} CallOwn(db: DB, mode: PutMode, items: seq<Item>, times: seq<Now>)
    requires OwnIds(db) && Binned(db, db.binIDs) && |times| == |items|
    ensures var r := PutAll(db, mode, items, times); r.PutOk? ==> OwnIds(r.b)
    decreases |items|
  {
    hide PutIn, OwnIds, Binned, BinsKept, First;
    if items != [] {
      hide PutAll;
      var n := |items| - 1;
      CallOwn(db, mode, items[..n], times[..n]);
      PutAllBinned(db, mode, items[..n], times[..n]);
      PutNext(db, mode, items, times);
      var r := PutAll(db, mode, items[..n], times[..n]);
      if r.PutOk? && First(items, n) {
        ItemOwn(db, r.b, r.ids, items[n], mode, times[n]);
      }
    }
  }

  /** A chunk that was there and is not replaced keeps its data. */
  lemma OldData(db: DB, mode: PutMode, items: seq<Item>, times: seq<Now>, x: Addr)
    requires |times| == |items| && x in db.core.data && x !in Lost(db, items)
    ensures var r := PutAll(db, mode, items, times);
      r.PutOk? ==> x in r.b.core.data && r.b.core.data[x] == db.core.data[x]
  {
    NewOnes(db, items);
    OthersUntouched(db, mode, items, times, x);
    hide PutAll, Stored, Lost, AddrSet;
  }

  /** In an index that lists chunks at their own ids, an entry only goes when its chunk is replaced. */
  lemma OldEntries(db: DB, items: seq<Item>, k: PullKey)
    requires OwnIds(db) && ListsStored(db) && k in db.pull
    ensures k in LostKeys(db, items) <==> db.pull[k] in Lost(db, items)
  {
    hide Lost;
  }

  /** put keeps the data of the chunks that stay, and gives every chunk an id of its own. */
  lemma PutData(db: DB, mode: PutMode, items: seq<Item>, times: seq<Now>)
    requires OwnIds(db) && Binned(db, db.binIDs) && |times| == |items| && PutAll(db, mode, items, times).PutOk?
    ensures var db' := Put(db, mode, items, times);
      && OwnIds(db') && (forall a :: a in db.core.data && a in db'.core.data ==> a !in Lost(db, items))
      && (forall x :: x in db.core.data && x !in Lost(db, items) ==>
            x in db'.core.data && db'.core.data[x] == db.core.data[x])
  {
    hide PutAll, Lost, Stored, Binned, OwnIds;
    var db' := Put(db, mode, items, times);
    CallOwn(db, mode, items, times);
    OwnSame(PutAll(db, mode, items, times).b, db');
    HeldAfter(db, mode, items, times);
    NewOnes(db, items);
    forall x | x in db.core.data && x !in Lost(db, items)
      ensures x in db'.core.data && db'.core.data[x] == db.core.data[x]
    {
      OldData(db, mode, items, times, x);
    }
  }

  lemma OwnSame(db: DB, db': DB)
    requires OwnIds(db) && db'.po == db.po && db'.core.data == db.core.data
    ensures OwnIds(db')
  {}

  lemma PutKeeps(db: DB, mode: PutMode, items: seq<Item>, times: seq<Now>)
    requires Indexed(db) && |times| == |items|
    ensures KeepsListed(db, Put(db, mode, items, times))
  {
    var db' := Put(db, mode, items, times);
    if PutAll(db, mode, items, times).PutOk? {
      hide Put, PutAll, Lost, Stored, LostKeys, Binned, NewAbove, Grows, Entered, IsNew, First, OwnIds;
      PutData(db, mode, items, times);
      PutLists(db, mode, items, times);
      PutBins(db, mode, items, times);
      forall k | k in db.pull ensures k in LostKeys(db, items) <==> db.pull[k] in Lost(db, items) {
        OldEntries(db, items, k);
      }
      PutKeepsAll(db, db', Lost(db, items), LostKeys(db, items));
    }
  }

  lemma PutKeepsAll(db: DB, db': DB, lost: set<Addr>, keys: set<PullKey>)
    requires Indexed(db) && db'.po == db.po && OwnIds(db') && Binned(db', db'.binIDs)
    requires forall k :: k in db.pull && k !in keys ==> k in db'.pull && db'.pull[k] == db.pull[k]
    requires forall k :: k in db'.pull && !(k in db.pull && k !in keys) ==>
               Listed(db', db'.pull[k]) && k == PullKeyOf(db', db'.pull[k])
    requires forall x :: x in db.core.data && x !in lost ==> x in db'.core.data && db'.core.data[x] == db.core.data[x]
    requires forall a :: a in db.core.data && a in db'.core.data ==> a !in lost
    requires forall k :: k in db.pull ==> (k in keys <==> db.pull[k] in lost)
    ensures KeepsListed(db, db')
  {
    hide OwnIds, Binned;
  }

  /**
  After a put that succeeds, an entry of the pull index stays if and only if its chunk is not replaced, and the place
  of a replaced chunk is free.
  */
  lemma PutUnlists(db: DB, mode: PutMode, items: seq<Item>, times: seq<Now>)
    requires Indexed(db) && |times| == |items| && PutAll(db, mode, items, times).PutOk?
    ensures var db' := Put(db, mode, items, times);
      && (forall k :: k in db.pull && db.pull[k] !in Lost(db, items) ==> k in db'.pull && db'.pull[k] == db.pull[k])
      && (forall x :: x in Lost(db, items) && x in db.core.data ==> PullKeyOf(db, x) !in db'.pull)
  {
    var db' := Put(db, mode, items, times);
    hide Put, PutAll, Lost, Stored, Entered, IsNew, First, OwnIds;
    PutLists(db, mode, items, times);
    NewOnes(db, items);
    PutBins(db, mode, items, times);
    forall k | k in db.pull ensures k in LostKeys(db, items) <==> db.pull[k] in Lost(db, items) {
      OldEntries(db, items, k);
    }
    forall x | x in Lost(db, items) && x in db.core.data ensures PullKeyOf(db, x) !in db'.pull {
      assert PullKeyOf(db, x) in LostKeys(db, items);
    }
  }

  // ---------------------------------------------------------------- the other steps

  /** Chunks are taken away together with their places in the pull index. */
  ghost predicate Drops(db: DB, db': DB, gone: set<Addr>) {
    && db'.po == db.po && db'.binIDs == db.binIDs && db'.core.data == db.core.data - gone
    && db'.pull == db.pull - set a | a in gone && a in db.core.data :: PullKeyOf(db, a)
  }

  lemma DropsKeep(db: DB, db': DB, gone: set<Addr>)
    requires Indexed(db) && Drops(db, db', gone)
    ensures KeepsListed(db, db')
  {
    DropsOwn(db, db', gone);
    DropsListed(db, db', gone);
    DropsBinned(db, db', gone);
    hide OwnIds, ListsStored, Binned, Drops, Listed;
  }

  lemma DropsBinned(db: DB, db': DB, gone: set<Addr>)
    requires Binned(db, db.binIDs) && Drops(db, db', gone)
    ensures Binned(db', db'.binIDs)
  {
    hide Counter;
  }

  lemma DropsOwn(db: DB, db': DB, gone: set<Addr>)
    requires OwnIds(db) && ListsStored(db) && Drops(db, db', gone)
    ensures OwnIds(db') && ListsStored(db')
  {
    forall k | k in db'.pull ensures db'.pull[k] in db'.core.data && k == PullKeyOf(db', db'.pull[k]) {
      assert k in db.pull && db'.pull[k] == db.pull[k];
    }
  }

  lemma DropsListed(db: DB, db': DB, gone: set<Addr>)
    requires OwnIds(db) && Drops(db, db', gone)
    ensures db'.po == db.po
    ensures forall a :: Listed(db, a) && a in db'.core.data ==> Listed(db', a) && db'.core.data[a] == db.core.data[a]
  {
    forall a | Listed(db, a) && a in db'.core.data ensures Listed(db', a) && db'.core.data[a] == db.core.data[a] {
      assert a !in gone;
      assert PullKeyOf(db, a) !in set x | x in gone && x in db.core.data :: PullKeyOf(db, x);
    }
  }

  lemma {:induction false} SetAllData(db: Core, mode: SetMode, addrs: seq<Addr>, times: seq<Now>)
    requires |times| == |addrs|
    ensures var r := SetAll(db, mode, addrs, times);
      r.Ok? ==> r.b.data == if mode == SetRemove then db.data - set a | a in addrs else db.data
    decreases |addrs|
  {
    hide SetIn;
    if addrs != [] {
      var n := |addrs| - 1;
      SetAllData(db, mode, addrs[..n], times[..n]);
      assert addrs == addrs[..n] + [addrs[n]];
      assert (set a | a in addrs) == (set a | a in addrs[..n]) + {addrs[n]};
      var r := SetAll(db, mode, addrs[..n], times[..n]);
      if r.Ok? { SetInData(db, r.b, mode, addrs[n], times[n]); }
    }
  }

  lemma SetInData(db: Core, b: Core, mode: SetMode, a: Addr, now: Now)
    ensures var s := SetIn(db, b, mode, a, now);
      s.Ok? ==> s.b.data == if mode == SetRemove then b.data - {a} else b.data
  {}

  /** A set call that removes takes the chunks with their entries; any other takes nothing. */
  lemma SetDrops(db: DB, mode: SetMode, addrs: seq<Addr>, times: seq<Now>)
    requires |times| == |addrs|
    ensures var gone := if mode == SetRemove && SetAll(db.core, mode, addrs, times).Ok? then set a | a in addrs else {};
      Drops(db, Set(db, mode, addrs, times), gone)
  {
    hide SetAll, PullKeysOf, ChunkKeysOf;
    SetAllData(db.core, mode, addrs, times);
    if mode == SetRemove && SetAll(db.core, mode, addrs, times).Ok? {
      PlacesOf(db, addrs);
    } else {
      TakesNothing(db, Set(db, mode, addrs, times));
    }
  }

  lemma PlacesOf(db: DB, addrs: seq<Addr>)
    ensures PullKeysOf(db, addrs) == set a | a in (set a | a in addrs) && a in db.core.data :: PullKeyOf(db, a)
  {}

  lemma TakesNothing(db: DB, db': DB)
    requires db'.po == db.po && db'.binIDs == db.binIDs && db'.core.data == db.core.data && db'.pull == db.pull
    ensures Drops(db, db', {})
  {}

  lemma {:induction false} UnpinAllData(db: Core, addrs: seq<Addr>, times: seq<Now>)
    requires |times| == |addrs|
    ensures UnpinAll(db, addrs, times).0.data == db.data
    decreases |addrs|
  {
    hide UnpinIn;
    if addrs != [] {
      var n := |addrs| - 1;
      UnpinAllData(db, addrs[..n], times[..n]);
      UnpinInData(db, UnpinAll(db, addrs[..n], times[..n]).0, addrs[n], times[n]);
    }
  }

  lemma UnpinInData(db: Core, b: Core, a: Addr, now: Now)
    ensures UnpinIn(db, b, a, now).b.data == b.data
  {}

  function AddrsOf(keys: seq<GcKey>): set<Addr> { set k | k in keys :: k.addr }

  lemma {:induction false} CollectAllData(c: Core, keys: seq<GcKey>)
    ensures CollectAll(c, keys).data == c.data - AddrsOf(keys) && CollectAll(c, keys).access == c.access - AddrsOf(keys)
    decreases |keys|
  {
    if keys != [] {
      var n := |keys| - 1;
      CollectAllData(c, keys[..n]);
      assert AddrsOf(keys) == AddrsOf(keys[..n]) + {keys[n].addr} by { assert keys == keys[..n] + [keys[n]]; }
    }
  }

  /** The commit takes the collected chunks with their entries. */
  lemma CommitDrops(s: Store, t: int)
    requires StoreInv(s, t)
    ensures Drops(s.db, Commit(s).db, AddrsOf(Clean(s.candidates, s.dirty)))
  {
    var keys := Clean(s.candidates, s.dirty);
    CleanFacts(s.candidates, s.dirty);
    CollectAllData(s.db.core, keys);
    forall k | k in keys ensures k.addr in s.db.core.data && s.db.core.data[k.addr].binID == k.binID {
      assert k in s.db.core.gc && AgreeAt(s.db.core, t, k.addr);
    }
    CommitPull(s, keys);
  }

  lemma CommitPull(s: Store, keys: seq<GcKey>)
    requires keys == Clean(s.candidates, s.dirty)
    requires forall k :: k in keys ==> k.addr in s.db.core.data && s.db.core.data[k.addr].binID == k.binID
    ensures Commit(s).db.pull ==
              s.db.pull - set a | a in AddrsOf(keys) && a in s.db.core.data :: PullKeyOf(s.db, a)
    ensures Commit(s).db.core == CollectAll(s.db.core, keys)
    ensures Commit(s).db.po == s.db.po && Commit(s).db.binIDs == s.db.binIDs
  {
    hide Clean, CollectAll, MinusUint64;
    var places := set k | k in keys :: PullKey(s.db.po(k.addr), k.binID);
    var gone := set a | a in AddrsOf(keys) && a in s.db.core.data :: PullKeyOf(s.db, a);
    forall p | p in places ensures p in gone {
      var k :| k in keys && p == PullKey(s.db.po(k.addr), k.binID);
      assert k.addr in AddrsOf(keys);
    }
    forall p | p in gone ensures p in places {
      var a :| a in AddrsOf(keys) && a in s.db.core.data && p == PullKeyOf(s.db, a);
      var k :| k in keys && k.addr == a;
      assert p == PullKey(s.db.po(k.addr), k.binID);
    }
    assert places == gone;
  }

  /** Every step of any run. */
  lemma StepKeeps(s: Store, op: Op, t: int)
    requires Indexed(s.db) && StoreInv(s, t) && Sized(op)
    ensures KeepsListed(s.db, Do(s, op).db)
  {
    hide Indexed, KeepsListed, Put, Set, Drops, StoreInv, Commit;
    match op {
      case OpPut(mode, items, times) =>
        PutKeeps(s.db, mode, items, times);
        Unchanged(s.db);
      case OpSet(mode, addrs, times) =>
        SetDrops(s.db, mode, addrs, times);
        DropsKeep(s.db, Set(s.db, mode, addrs, times),
                  if mode == SetRemove && SetAll(s.db.core, mode, addrs, times).Ok? then set a | a in addrs else {});
      case OpUpdateGC(a, binID, v, now) => UpdateKeeps(s.db, a, binID, v, now);
      case OpUnreserve(id, bin, addrs, times) => UnreserveKeeps(s.db, id, bin, addrs, times);
      case OpGcCommit =>
        CommitDrops(s, t);
        DropsKeep(s.db, Commit(s).db, AddrsOf(Clean(s.candidates, s.dirty)));
      case _ => Unchanged(s.db);
    }
  }

  lemma Unchanged(db: DB)
    requires Indexed(db)
    ensures KeepsListed(db, db)
  {}

  lemma UpdateKeeps(db: DB, a: Addr, binID: nat, v: GcValue, now: int)
    requires Indexed(db)
    ensures KeepsListed(db, db.(core := UpdateGC(db.core, a, binID, v, now)))
  {
    var db' := db.(core := UpdateGC(db.core, a, binID, v, now));
    assert db'.core.data == db.core.data;
    hide UpdateGC, Indexed, KeepsListed;
    DropsNothing(db, db');
  }

  lemma UnreserveKeeps(db: DB, id: BatchID, bin: nat, addrs: seq<Addr>, times: seq<Now>)
    requires Indexed(db) && |times| == |addrs|
    ensures KeepsListed(db, UnreserveBin(db, id, bin, addrs, times))
  {
    UnpinAllData(db.core, addrs, times);
    hide UnpinAll, Indexed, KeepsListed;
    DropsNothing(db, UnreserveBin(db, id, bin, addrs, times));
  }

  lemma DropsNothing(db: DB, db': DB)
    requires Indexed(db) && db'.po == db.po && db'.binIDs == db.binIDs && db'.core.data == db.core.data
    requires db'.pull == db.pull
    ensures KeepsListed(db, db')
  {
    hide Indexed, KeepsListed, Drops;
    TakesNothing(db, db');
    DropsKeep(db, db', {});
  }

  // ---------------------------------------------------------------- runs

  /** The step stores the chunk, and not only as a cached one. */
  ghost predicate Feeds(s: Store, op: Op, a: Addr) {
    && op.OpPut? && Sized(op) && op.mode != PutRequestCache && PutAll(s.db, op.mode, op.items, op.times).PutOk?
    && exists i :: 0 <= i < |op.items| && Stores(s.db, op.items, i) && op.items[i].addr == a
  }

  lemma FedIsListed(s: Store, op: Op, a: Addr)
    requires Indexed(s.db) && Feeds(s, op, a)
    ensures Listed(Do(s, op).db, a)
  {
    hide PutAll, IsNew, First, LostKeys, Lost, Stored;
    var i :| 0 <= i < |op.items| && Stores(s.db, op.items, i) && op.items[i].addr == a;
    NewIsAbsent(s.db, op.items[i]);
    PutLists(s.db, op.mode, op.items, op.times);
    hide Put;
  }

  /** Over any safe run the index stays right. */
  lemma {:induction false} IndexedAlways(states: seq<Store>, ops: seq<Op>, clocks: seq<int>, j: nat)
    requires StoreRun(states, ops, clocks) && Indexed(states[0].db) && j <= |ops|
    ensures Indexed(states[j].db)
  {
    hide Indexed, StoreInv, Do, Safe, Clock;
    if j > 0 {
      IndexedAlways(states, ops, clocks, j - 1);
      IndexesAgree(states, ops, clocks, j - 1);
      StepKeeps(states[j - 1], ops[j - 1], clocks[j - 1]);
      assert states[j] == Do(states[j - 1], ops[j - 1]);
    }
  }

  /**
  Over any safe run, a chunk put in any mode but PutRequestCache is listed in the pull index from then on, at the id it
  was given, for as long as it is stored.
  */
  lemma {:induction false} ListedWhileStored(states: seq<Store>, ops: seq<Op>, clocks: seq<int>, i: nat, j: nat,
                                             a: Addr)
    requires StoreRun(states, ops, clocks) && Indexed(states[0].db) && i < j <= |ops| && Feeds(states[i], ops[i], a)
    requires forall m :: i < m <= j ==> a in states[m].db.core.data
    ensures Listed(states[j].db, a) && states[j].db.core.data[a] == states[i + 1].db.core.data[a]
    decreases j
  {
    hide Indexed, StoreInv, Do, Safe, Clock, Feeds, Listed;
    IndexedAlways(states, ops, clocks, j - 1);
    assert states[j] == Do(states[j - 1], ops[j - 1]);
    if j == i + 1 {
      FedIsListed(states[i], ops[i], a);
    } else {
      ListedWhileStored(states, ops, clocks, i, j - 1, a);
      IndexesAgree(states, ops, clocks, j - 1);
      StepKeeps(states[j - 1], ops[j - 1], clocks[j - 1]);
    }
  }
}
