/** Stamp indexes that name a chunk which is no longer stored: how they come about, and what they block. */
module LocalstoreStale {
  import opened Localstore
  import opened LocalstoreInv
  import opened LocalstoreBatch
  import opened LocalstorePut
  import opened LocalstoreRepeat
  import opened LocalstoreReplace
  import opened LocalstoreHeld
  import opened LocalstoreGc
  import opened LocalstorePins
  import opened LocalstoreEntries
  import opened LocalstoreStamps
  import opened LocalstoreListed
  import opened LocalstoreFiled

  /** One new chunk is stored if and only if it is not refused. */
  lemma OneItem(db: DB, mode: PutMode, item: Item, now: Now, t: int)
    requires Inv(db, t) && IsNew(db, item)
    ensures item.addr in Put(db, mode, [item], [now]).core.data <==> !RefusedItem(db, item)
    ensures RefusedItem(db, item) ==> Put(db, mode, [item], [now]) == db
  {
    NewIsAbsent(db, item);
    InvAgrees(db, t);
    hide PutAll, AgreeAt, IsNew, RefusedItem;
    assert First([item], 0) && [item][0] == item && [item][..0] == [];
    CallFails(db, mode, [item], [now], t);
    HeldAfter(db, mode, [item], [now]);
    assert Stored(db, [item]) == {item.addr};
  }

  /** A stamp for another chunk, later than the one the index has. */
  predicate LaterStamp(db: DB, item: Item) {
    && item.addr !in db.core.data && !item.immutable
    && StampOf(item) in db.postageIndex && item.stampTs > db.postageIndex[StampOf(item)].stampTs
  }

  /** A later stamp for an index goes through if and only if the chunk that the index names is still stored. */
  lemma BlockedIff(db: DB, mode: PutMode, item: Item, now: Now, t: int)
    requires Inv(db, t) && t < now.store < now.access && LaterStamp(db, item)
    ensures item.addr in Put(db, mode, [item], [now]).core.data <==>
              db.postageIndex[StampOf(item)].addr in db.core.data
    ensures db.postageIndex[StampOf(item)].addr !in db.core.data ==> Put(db, mode, [item], [now]) == db
  {
    hide Inv, Put;
    OneItem(db, mode, item, now, t);
  }

  /** Removing a chunk leaves its stamp index behind, so no later stamp for that index goes through. */
  lemma RemovedChunkBlocks(db: DB, addrs: seq<Addr>, times: seq<Now>, mode: PutMode, item: Item, now: Now, t: int)
    requires Inv(db, t) && |times| == |addrs| && Ticking(times, t) && EndTime(times, t) < now.store < now.access
    requires (forall i :: 0 <= i < |addrs| ==> addrs[i] in db.core.data) && !MovesTwice(db.core, SetRemove, addrs)
    requires LaterStamp(db, item) && db.postageIndex[StampOf(item)].addr in addrs
    ensures var removed := Set(db, SetRemove, addrs, times); Put(removed, mode, [item], [now]) == removed
  {
    hide Inv, SetAll, Moves, Put, AgreeAt;
    var removed := Set(db, SetRemove, addrs, times);
    CallKeys(db.core, SetRemove, addrs, times, t) by { InvAgrees(db, t); }
    SetExact(db, SetRemove, addrs, times, t);
    SetDrops(db, SetRemove, addrs, times);
    assert removed.postageIndex == db.postageIndex;
    hide Set;
    BlockedIff(removed, mode, item, now, EndTime(times, t));
  }

  /** setUnpin puts a chunk into the gc index without the index of its stamp. */
  lemma UnpinDropsIndex(db: DB, a: Addr, now: Now)
    requires a in db.core.data && a in db.core.pin && db.core.pin[a] <= 1 && !Waits(db.core, a)
    ensures var c := Once(db, SetUnpin, a, now).core;
      Collectable(c, a) && c.gc[KeyOf(c, a)] == GcValue(db.core.data[a].batch, NO_INDEX)
  {
    OneStep(db.core, SetUnpin, a, now);
    hide SetAll;
  }

  lemma OneStep(c: Core, mode: SetMode, a: Addr, now: Now)
    ensures var s := SetIn(c, c, mode, a, now);
      SetAll(c, mode, [a], [now]) == if s.Err? then s else Ok(s.b, s.change)
  {
    hide SetIn;
    assert [a][..0] == [] && [now][..0] == [] && SetAll(c, mode, [], []) == Ok(c, 0);
  }

  /**
  Collecting such a chunk leaves its stamp index behind too: a later stamp for that index goes through after the commit
  if and only if the chunk was not collected, or an entry that was collected carried the index.
  */
  lemma CollectedChunkBlocks(s: Store, mode: PutMode, item: Item, now: Now, t: int)
    requires StoreInv(s, t) && Stamped(s.db.core) && t < now.store < now.access && LaterStamp(s.db, item)
    requires s.db.postageIndex[StampOf(item)].addr in s.db.core.data
    ensures var db', keys := Commit(s).db, Clean(s.candidates, s.dirty);
      item.addr in Put(db', mode, [item], [now]).core.data <==>
        || s.db.postageIndex[StampOf(item)].addr !in AddrsOf(keys)
        || exists k :: k in keys && k in s.db.core.gc
                       && StampKey(s.db.core.gc[k].batch, s.db.core.gc[k].index) == StampOf(item)
  {
    var db', keys, i := Commit(s).db, Clean(s.candidates, s.dirty), StampOf(item);
    CommitCollects(s, t);
    CommitIsSafe(s, t);
    CommitCore(s);
    CollectAllData(s.db.core, keys);
    hide Commit, Clean, StoreInv, Put, PutAll, Stamped, CollectAll, AddrsOf, SameAt, Drops, Unfiles, NotInGc;
    assert Inv(db', t) && item.addr !in db'.core.data by { StillInv(Commit(s), t); }
    if i in db'.postageIndex {
      KeptValue(s, i);
      BlockedIff(db', mode, item, now, t);
    } else {
      FreeIndex(db', mode, item, now, t);
    }
  }

  lemma StillInv(s: Store, t: int)
    requires StoreInv(s, t)
    ensures Inv(s.db, t)
  {}

  lemma KeptValue(s: Store, i: StampKey)
    requires i in Commit(s).db.postageIndex
    ensures i in s.db.postageIndex && Commit(s).db.postageIndex[i] == s.db.postageIndex[i]
  {
    hide Clean, CollectAll, MinusUint64;
  }

  /** A chunk whose stamp index is free is stored. */
  lemma FreeIndex(db: DB, mode: PutMode, item: Item, now: Now, t: int)
    requires Inv(db, t) && item.addr !in db.core.data && StampOf(item) !in db.postageIndex
    ensures item.addr in Put(db, mode, [item], [now]).core.data
  {
    hide Inv, Put;
    OneItem(db, mode, item, now, t);
  }
}
