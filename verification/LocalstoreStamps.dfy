/** What a put call does to the postage indexes. */
module LocalstoreStamps {
  import opened Localstore
  import opened LocalstorePut
  import opened LocalstorePutInv
  import opened LocalstoreReplace
  import opened LocalstoreHeld
  import opened LocalstoreEntries

  function ChunkKeyOf(db: DB, a: Addr): ChunkKey
    requires a in db.core.data
  {
    ChunkKey(db.core.data[a].batch, db.po(a), a)
  }

  // ---------------------------------------------------------------- one item

  function StampOf(item: Item): StampKey { StampKey(item.batch, item.index) }

  lemma ItemStamp(db: DB, b: DB, ids: map<nat, nat>, item: Item, mode: PutMode, now: Now)
    ensures var s := PutIn(db, b, ids, item, mode, now);
      s.PutOk? ==>
        s.b.postageIndex == if IsNew(db, item) then b.postageIndex[StampOf(item) := StampValue(item.addr, item.stampTs)]
                            else b.postageIndex
  {
    hide PutIn, StoreIn, CollisionIn, RemoveIn, IsNew, NotStoredIn, NextBinID;
    if !IsNew(db, item) {
      PutSkips(db, b, ids, item, mode, now);
      NotStoredStamps(db, b, ids, item, mode);
    } else if NoReplacement(db, item) {
      PutStores(db, b, ids, item, mode, now);
      StoreWrites(db, b, ids, item, mode, 0, now);
    } else {
      PutReplaces(db, b, ids, item, mode, now);
      NewIsAbsent(db, item);
      CollisionTakes(db, b, item);
      var col := CollisionIn(db, b, item);
      if col.Replaced? { StoreWrites(db, col.b, ids, item, mode, col.change, now); }
    }
  }

  lemma NotStoredStamps(db: DB, b: DB, ids: map<nat, nat>, item: Item, mode: PutMode)
    ensures forall existed :: var s := NotStoredIn(db, b, ids, item, mode, existed);
              s.PutOk? ==> s.b.postageIndex == b.postageIndex && s.b.postageChunks == b.postageChunks && s.b.po == b.po
                           && s.b.core.data == b.core.data
  {}

  // ---------------------------------------------------------------- stamp indexes

  /** put stores item i. */
  predicate Stores(db: DB, items: seq<Item>, i: nat)
    requires i < |items|
  {
    First(items, i) && IsNew(db, items[i])
  }

  /** Item i is the last one stored with its stamp index. */
  predicate LastOfIndex(db: DB, items: seq<Item>, i: nat)
    requires i < |items|
  {
    && Stores(db, items, i)
    && forall j :: i < j < |items| && Stores(db, items, j) ==> StampOf(items[j]) != StampOf(items[i])
  }

  lemma StoresPrefix(db: DB, items: seq<Item>, n: nat, i: nat)
    requires i < n <= |items|
    ensures Stores(db, items[..n], i) == Stores(db, items, i)
  {
    assert items[..n][..i] == items[..i];
  }

  /** A stamp index names the last chunk the call stored with it. */
  lemma {:induction false} StampNamesLast(db: DB, mode: PutMode, items: seq<Item>, times: seq<Now>, i: nat)
    requires |times| == |items| && i < |items| && LastOfIndex(db, items, i)
    ensures var r, k := PutAll(db, mode, items, times), StampOf(items[i]);
      r.PutOk? ==> k in r.b.postageIndex && r.b.postageIndex[k] == StampValue(items[i].addr, items[i].stampTs)
    decreases |items|
  {
    hide PutIn, IsNew, PutAll, First;
    var n := |items| - 1;
    PutNext(db, mode, items, times);
    var r := PutAll(db, mode, items[..n], times[..n]);
    if r.PutOk? {
      if First(items, n) { ItemStamp(db, r.b, r.ids, items[n], mode, times[n]); }
      if i < n {
        assert LastOfIndex(db, items[..n], i) by {
          StoresPrefix(db, items, n, i);
          forall j | i < j < n && Stores(db, items[..n], j) ensures StampOf(items[j]) != StampOf(items[i]) {
            StoresPrefix(db, items, n, j);
          }
        }
        StampNamesLast(db, mode, items[..n], times[..n], i);
        assert Stores(db, items, n) ==> StampOf(items[n]) != StampOf(items[i]);
      }
    }
  }

  /** A stamp index that no stored chunk carries is left alone. */
  lemma {:induction false} OtherStamps(db: DB, mode: PutMode, items: seq<Item>, times: seq<Now>, k: StampKey)
    requires |times| == |items| && forall i :: 0 <= i < |items| && Stores(db, items, i) ==> StampOf(items[i]) != k
    ensures var r := PutAll(db, mode, items, times);
      r.PutOk? ==>
        && (k in r.b.postageIndex <==> k in db.postageIndex)
        && (k in db.postageIndex ==> r.b.postageIndex[k] == db.postageIndex[k])
    decreases |items|
  {
    hide PutIn, IsNew, First;
    if items != [] {
      hide PutAll;
      var n := |items| - 1;
      PutNext(db, mode, items, times);
      forall i | 0 <= i < n && Stores(db, items[..n], i) ensures StampOf(items[..n][i]) != k {
        StoresPrefix(db, items, n, i);
      }
      OtherStamps(db, mode, items[..n], times[..n], k);
      var r := PutAll(db, mode, items[..n], times[..n]);
      assert Stores(db, items, n) ==> StampOf(items[n]) != k;
      if r.PutOk? && First(items, n) { ItemStamp(db, r.b, r.ids, items[n], mode, times[n]); }
    }
  }

  // ---------------------------------------------------------------- chunks of a batch

  /** The chunk entries are the old ones, but not those of replaced chunks, and those of stored ones. */
  ghost predicate ChunksAfter(db: DB, b: DB, lost: set<Addr>, stored: set<Addr>) {
    && b.po == db.po
    && (forall x :: x in stored ==> x in b.core.data && ChunkKeyOf(b, x) in b.postageChunks)
    && (forall k :: k in db.postageChunks && !(k.addr in lost && k.addr in db.core.data && k == ChunkKeyOf(db, k.addr))
          ==> k in b.postageChunks)
    && (forall k :: k in b.postageChunks ==>
          || (k in db.postageChunks && !(k.addr in lost && k.addr in db.core.data && k == ChunkKeyOf(db, k.addr)))
          || (k.addr in stored && k.addr in b.core.data && k == ChunkKeyOf(b, k.addr)))
  }

  lemma WriteChunks(db: DB, b: DB, b': DB, mode: PutMode, item: Item, id: nat, lost: set<Addr>, stored: set<Addr>)
    requires ChunksAfter(db, b, lost, stored) && Writes(db, b, b', mode, item, id) && item.addr !in stored
    requires item.addr !in db.core.data
    ensures ChunksAfter(db, b', lost, stored + {item.addr})
  {}

  lemma TakeChunks(db: DB, b: DB, b': DB, p: Addr, lost: set<Addr>, stored: set<Addr>)
    requires ChunksAfter(db, b, lost, stored) && TakesAway(db, b, b', p) && stored !! db.core.data.Keys
    ensures ChunksAfter(db, b', lost + {p}, stored)
  {}

  lemma ItemChunks(db: DB, b: DB, ids: map<nat, nat>, item: Item, mode: PutMode, now: Now, lost: set<Addr>,
                   stored: set<Addr>)
    requires ChunksAfter(db, b, lost, stored) && stored !! db.core.data.Keys && item.addr !in stored
    ensures var s := PutIn(db, b, ids, item, mode, now);
      s.PutOk? ==>
        ChunksAfter(db, s.b, lost + Replaces(db, item), stored + if IsNew(db, item) then {item.addr} else {})
  {
    hide PutIn, StoreIn, CollisionIn, RemoveIn, ChunksAfter, IsNew, NotStoredIn, NextBinID, Writes, TakesAway;
    var id := NextBinID(db, ids, db.po(item.addr));
    if !IsNew(db, item) {
      PutSkips(db, b, ids, item, mode, now);
      NotStoredChunks(db, b, ids, item, mode, lost, stored);
      assert lost + Replaces(db, item) == lost && stored + {} == stored;
    } else {
      NewIsAbsent(db, item);
      if NoReplacement(db, item) {
        PutStores(db, b, ids, item, mode, now);
        StoreWrites(db, b, ids, item, mode, 0, now);
        var s := StoreIn(db, b, ids, item, mode, 0, now);
        assert lost + Replaces(db, item) == lost;
        if s.PutOk? { WriteChunks(db, b, s.b, mode, item, id, lost, stored); }
      } else {
        PutReplaces(db, b, ids, item, mode, now);
        CollisionTakes(db, b, item);
        var col := CollisionIn(db, b, item);
        if col.Replaced? {
          TakeChunks(db, b, col.b, ReplacedBy(db, item).value, lost, stored);
          StoreWrites(db, col.b, ids, item, mode, col.change, now);
          var s := StoreIn(db, col.b, ids, item, mode, col.change, now);
          if s.PutOk? { WriteChunks(db, col.b, s.b, mode, item, id, lost + Replaces(db, item), stored); }
        }
      }
    }
  }

  lemma NotStoredChunks(db: DB, b: DB, ids: map<nat, nat>, item: Item, mode: PutMode, lost: set<Addr>,
                        stored: set<Addr>)
    requires ChunksAfter(db, b, lost, stored)
    ensures forall existed :: var s := NotStoredIn(db, b, ids, item, mode, existed);
              s.PutOk? ==> ChunksAfter(db, s.b, lost, stored)
  {
    NotStoredStamps(db, b, ids, item, mode);
    hide NotStoredIn;
  }

  lemma LostNext(db: DB, items: seq<Item>)
    requires items != []
    ensures var n := |items| - 1;
      Lost(db, items) == Lost(db, items[..n]) + if First(items, n) then Replaces(db, items[n]) else {}
  {}

  lemma NoChunks(db: DB)
    ensures ChunksAfter(db, db, Lost(db, []), Stored(db, []))
  {}

  /** Over a call that succeeds, each batch gets the entries of the chunks stored under it and loses the replaced. */
  lemma {:induction false} CallChunks(db: DB, mode: PutMode, items: seq<Item>, times: seq<Now>)
    requires |times| == |items|
    ensures var r := PutAll(db, mode, items, times);
      r.PutOk? ==> ChunksAfter(db, r.b, Lost(db, items), Stored(db, items))
    decreases |items|
  {
    hide PutIn, IsNew, ChunksAfter, Stored, Lost, Replaces;
    if items == [] {
      NoChunks(db);
    } else {
      hide PutAll, First;
      var n := |items| - 1;
      CallChunks(db, mode, items[..n], times[..n]);
      var r := PutAll(db, mode, items[..n], times[..n]);
      PutNext(db, mode, items, times);
      LostNext(db, items);
      StoredNext(db, items);
      NewOnes(db, items[..n]);
      if r.PutOk? {
        if First(items, n) {
          NotStoredYet(db, items);
          ItemChunks(db, r.b, r.ids, items[n], mode, times[n], Lost(db, items[..n]), Stored(db, items[..n]));
        } else {
          assert Lost(db, items[..n]) + {} == Lost(db, items[..n]);
          assert Stored(db, items[..n]) + {} == Stored(db, items[..n]);
        }
      }
    }
  }

  /**
  After a put that succeeds, a stamp index names the last chunk stored with it, or what it named before; and the chunk
  entries of the batches are those from before without the replaced chunks, and those of the stored ones.
  */
  lemma PutStamps(db: DB, mode: PutMode, items: seq<Item>, times: seq<Now>)
    requires |times| == |items| && PutAll(db, mode, items, times).PutOk?
    ensures var db' := Put(db, mode, items, times);
      && (forall i :: 0 <= i < |items| && LastOfIndex(db, items, i) ==>
            && StampOf(items[i]) in db'.postageIndex
            && db'.postageIndex[StampOf(items[i])] == StampValue(items[i].addr, items[i].stampTs))
      && (forall k :: (forall i :: 0 <= i < |items| && Stores(db, items, i) ==> StampOf(items[i]) != k) ==>
            && (k in db'.postageIndex <==> k in db.postageIndex)
            && (k in db.postageIndex ==> db'.postageIndex[k] == db.postageIndex[k]))
      && ChunksAfter(db, db', Lost(db, items), Stored(db, items))
  {
    hide PutAll, LastOfIndex, Stores;
    var db' := Put(db, mode, items, times);
    forall i | 0 <= i < |items| && LastOfIndex(db, items, i)
      ensures StampOf(items[i]) in db'.postageIndex
              && db'.postageIndex[StampOf(items[i])] == StampValue(items[i].addr, items[i].stampTs)
    {
      StampNamesLast(db, mode, items, times, i);
    }
    forall k | forall i :: 0 <= i < |items| && Stores(db, items, i) ==> StampOf(items[i]) != k
      ensures (k in db'.postageIndex <==> k in db.postageIndex)
              && (k in db.postageIndex ==> db'.postageIndex[k] == db.postageIndex[k])
    {
      OtherStamps(db, mode, items, times, k);
    }
    CallChunks(db, mode, items, times);
    hide Lost, Stored;
  }
}
