/** What a put call does to each chunk: to those it stores, to those it replaces, and to all others. */
module LocalstoreEntries {
  import opened Localstore
  import opened LocalstorePut
  import opened LocalstorePutInv
  import opened LocalstoreReplace
  import opened LocalstoreHeld

  predicate Uploads(mode: PutMode) { mode == PutUpload || mode == PutUploadPin }

  /** A new chunk is pinned: because the mode says so, or because it lies within the radius of its batch. */
  predicate Reserves(db: DB, mode: PutMode, item: Item) {
    || mode == PutUploadPin || mode == PutRequestPin
    || ((mode == PutRequest || mode == PutSync) && db.po(item.addr) >= item.radius)
  }

  function PullKeyOf(db: DB, a: Addr): PullKey
    requires a in db.core.data
  {
    PullKey(db.po(a), db.core.data[a].binID)
  }

  /** The chunk is stored, and the pull index lists it. */
  predicate Listed(db: DB, a: Addr) {
    a in db.core.data && PullKeyOf(db, a) in db.pull && db.pull[PullKeyOf(db, a)] == a
  }

  // ---------------------------------------------------------------- bins and stamps of a new chunk

  /** The chunk is stored with the stamp of its item and an id its bin had not given before. */
  ghost predicate Entered(db: DB, b: DB, mode: PutMode, item: Item) {
    && b.po == db.po && item.addr in b.core.data
    && var d := b.core.data[item.addr];
    && d.batch == item.batch && d.index == item.index && d.stampTs == item.stampTs
    && d.binID > Counter(db.binIDs, db.po(item.addr))
    && ChunkKey(item.batch, db.po(item.addr), item.addr) in b.postageChunks
    && (mode != PutRequestCache ==> Listed(b, item.addr))
  }

  lemma NewEntry(db: Core, b: Core, a: Addr, d: Data, access: int, within: bool, mode: PutMode)
    ensures var s := NewIn(db, b, a, d, access, within, mode);
      s.Ok? ==> s.b.data == b.data[a := d]
  {}

  /** What StoreIn writes apart from the core indexes other than data. */
  ghost predicate Writes(db: DB, b: DB, b': DB, mode: PutMode, item: Item, id: nat) {
    var a, bin := item.addr, db.po(item.addr);
    && b'.po == b.po && a in b'.core.data && b'.core.data == b.core.data[a := b'.core.data[a]]
    && b'.core.data[a].binID == id && b'.core.data[a].batch == item.batch
    && b'.core.data[a].index == item.index && b'.core.data[a].stampTs == item.stampTs
    && b'.pull == (if mode == PutRequestCache then b.pull else b.pull[PullKey(bin, id) := a])
    && b'.postageChunks == b.postageChunks + {ChunkKey(item.batch, bin, a)}
    && b'.postageIndex == b.postageIndex[StampKey(item.batch, item.index) := StampValue(a, item.stampTs)]
  }

  lemma StoreWrites(db: DB, b: DB, ids: map<nat, nat>, item: Item, mode: PutMode, change: int, now: Now)
    ensures var s := StoreIn(db, b, ids, item, mode, change, now);
      s.PutOk? ==> Writes(db, b, s.b, mode, item, NextBinID(db, ids, db.po(item.addr)))
  {
    var a, bin := item.addr, db.po(item.addr);
    var d := Data(now.store, NextBinID(db, ids, bin), item.batch, item.index, item.stampTs);
    hide NextBinID, NewIn;
    NewEntry(db.core, b.core, a, d, now.access, bin >= item.radius, mode);
  }

  lemma StoreEnters(db: DB, b: DB, ids: map<nat, nat>, item: Item, mode: PutMode, change: int, now: Now)
    requires BinsKept(db, b, ids)
    ensures var s := StoreIn(db, b, ids, item, mode, change, now); s.PutOk? ==> Entered(db, s.b, mode, item)
  {
    var bin := db.po(item.addr);
    StoreWrites(db, b, ids, item, mode, change, now);
    NextIsNext(db, ids, bin);
    assert Counter(db.binIDs, bin) <= Counter(db.binIDs + ids, bin);
    hide StoreIn, NextBinID, BinsKept, Counter;
  }

  lemma WriteKeeps(db: DB, b: DB, b': DB, mode: PutMode, item: Item, id: nat, other: Item)
    requires Writes(db, b, b', mode, item, id) && Entered(db, b, mode, other) && other.addr != item.addr
    requires db.po(other.addr) == db.po(item.addr) ==> b.core.data[other.addr].binID < id
    ensures Entered(db, b', mode, other)
  {
    hide Counter;
  }

  /** Storing another chunk leaves it so. */
  lemma StoreKeeps(db: DB, b: DB, ids: map<nat, nat>, item: Item, mode: PutMode, change: int, now: Now, other: Item)
    requires BinsKept(db, b, ids) && other.addr != item.addr && Entered(db, b, mode, other)
    ensures var s := StoreIn(db, b, ids, item, mode, change, now); s.PutOk? ==> Entered(db, s.b, mode, other)
  {
    var s := StoreIn(db, b, ids, item, mode, change, now);
    hide StoreIn, Writes, NextBinID, Counter;
    NextIsNext(db, ids, db.po(item.addr));
    StoreWrites(db, b, ids, item, mode, change, now);
    assert b.core.data[other.addr].binID <= Counter(db.binIDs + ids, db.po(other.addr));
    hide BinsKept, Entered, Listed;
    if s.PutOk? { WriteKeeps(db, b, s.b, mode, item, NextBinID(db, ids, db.po(item.addr)), other); }
  }

  /** What making room takes away, apart from the core indexes other than data. */
  ghost predicate TakesAway(db: DB, b: DB, b': DB, p: Addr) {
    && b'.po == b.po && p in db.core.data && b'.core.data == b.core.data - {p}
    && b'.pull == b.pull - {PullKeyOf(db, p)} && b'.postageIndex == b.postageIndex
    && b'.postageChunks == b.postageChunks - {ChunkKey(db.core.data[p].batch, db.po(p), p)}
  }

  lemma CollisionTakes(db: DB, b: DB, item: Item)
    requires item.addr !in db.core.data
    ensures var col := CollisionIn(db, b, item);
      col.Replaced? ==> ReplacedBy(db, item).Some? && TakesAway(db, b, col.b, ReplacedBy(db, item).value)
  {}

  /** So does taking away a chunk that was stored before the call. */
  lemma CollisionKeeps(db: DB, b: DB, item: Item, mode: PutMode, other: Item)
    requires Binned(db, db.binIDs) && Entered(db, b, mode, other) && other.addr !in db.core.data
    requires item.addr !in db.core.data
    ensures var col := CollisionIn(db, b, item); col.Replaced? ==> Entered(db, col.b, mode, other)
  {
    hide Counter, CollisionIn;
    CollisionTakes(db, b, item);
  }

  lemma ItemEnters(db: DB, b: DB, ids: map<nat, nat>, item: Item, mode: PutMode, now: Now)
    requires BinsKept(db, b, ids) && IsNew(db, item)
    ensures var s := PutIn(db, b, ids, item, mode, now); s.PutOk? ==> Entered(db, s.b, mode, item)
  {
    hide PutIn, StoreIn, CollisionIn, RemoveIn, BinsKept, Entered, IsNew;
    if NoReplacement(db, item) {
      PutStores(db, b, ids, item, mode, now);
      StoreEnters(db, b, ids, item, mode, 0, now);
    } else {
      PutReplaces(db, b, ids, item, mode, now);
      CollisionBins(db, b, ids, item);
      var col := CollisionIn(db, b, item);
      if col.Replaced? { StoreEnters(db, col.b, ids, item, mode, col.change, now); }
    }
  }

  lemma ItemKeeps(db: DB, b: DB, ids: map<nat, nat>, item: Item, mode: PutMode, now: Now, other: Item)
    requires Binned(db, db.binIDs) && BinsKept(db, b, ids)
    requires Entered(db, b, mode, other) && other.addr !in db.core.data && other.addr != item.addr
    ensures var s := PutIn(db, b, ids, item, mode, now); s.PutOk? ==> Entered(db, s.b, mode, other)
  {
    hide PutIn, StoreIn, CollisionIn, RemoveIn, BinsKept, Entered, IsNew, Binned, NotStoredIn;
    if !IsNew(db, item) {
      PutSkips(db, b, ids, item, mode, now);
      NotStoredKeeps(db, b, ids, item, mode, other);
    } else if NoReplacement(db, item) {
      PutStores(db, b, ids, item, mode, now);
      StoreKeeps(db, b, ids, item, mode, 0, now, other);
    } else {
      PutReplaces(db, b, ids, item, mode, now);
      CollisionBins(db, b, ids, item);
      NewIsAbsent(db, item);
      CollisionKeeps(db, b, item, mode, other);
      var col := CollisionIn(db, b, item);
      if col.Replaced? { StoreKeeps(db, col.b, ids, item, mode, col.change, now, other); }
    }
  }

  lemma NotStoredKeeps(db: DB, b: DB, ids: map<nat, nat>, item: Item, mode: PutMode, other: Item)
    requires Entered(db, b, mode, other)
    ensures forall existed :: var s := NotStoredIn(db, b, ids, item, mode, existed);
              s.PutOk? ==> Entered(db, s.b, mode, other)
  {
    hide Counter;
  }

  /** Every new item of a call that succeeds. */
  lemma {:induction false} AllEntered(db: DB, mode: PutMode, items: seq<Item>, times: seq<Now>, i: nat)
    requires Binned(db, db.binIDs) && |times| == |items| && i < |items| && First(items, i) && IsNew(db, items[i])
    ensures var r := PutAll(db, mode, items, times); r.PutOk? ==> Entered(db, r.b, mode, items[i])
    decreases |items|
  {
    hide PutIn, IsNew, Entered, Binned, BinsKept, PutAll, NoReplacement;
    var n := |items| - 1;
    var r := PutAll(db, mode, items[..n], times[..n]);
    PutNext(db, mode, items, times);
    PutAllBinned(db, mode, items[..n], times[..n]);
    if r.PutOk? {
      if i == n {
        ItemEnters(db, r.b, r.ids, items[n], mode, times[n]);
      } else {
        assert items[..n][..i] == items[..i];
        AllEntered(db, mode, items[..n], times[..n], i);
        if First(items, n) {
          NotAgain(items, i, n);
          NewIsAbsent(db, items[i]);
          ItemKeeps(db, r.b, r.ids, items[n], mode, times[n], items[i]);
        }
      }
    }
    hide First;
  }

  lemma NewIsAbsent(db: DB, item: Item)
    requires IsNew(db, item)
    ensures item.addr !in db.core.data
  {}

  // ---------------------------------------------------------------- the pull index

  /** The places of the replaced chunks. */
  ghost function LostKeys(db: DB, items: seq<Item>): set<PullKey> {
    set x | x in Lost(db, items) && x in db.core.data :: PullKeyOf(db, x)
  }

  /** The entries of the pull index are the old ones, but not those of replaced chunks, and those of stored ones. */
  ghost predicate PullAfter(db: DB, b: DB, mode: PutMode, lost: set<PullKey>, stored: set<Addr>) {
    && b.po == db.po
    && (forall k :: k in db.pull && k !in lost ==> k in b.pull && b.pull[k] == db.pull[k])
    && (forall k :: k in b.pull ==>
          || (k in db.pull && k !in lost && b.pull[k] == db.pull[k])
          || (mode != PutRequestCache && b.pull[k] in stored && b.pull[k] in b.core.data
              && k == PullKeyOf(b, b.pull[k])))
  }

  lemma WritePull(db: DB, b: DB, b': DB, mode: PutMode, item: Item, id: nat, lost: set<PullKey>, stored: set<Addr>)
    requires PullAfter(db, b, mode, lost, stored) && Writes(db, b, b', mode, item, id) && item.addr !in stored
    requires Binned(db, db.binIDs) && id > Counter(db.binIDs, db.po(item.addr))
    ensures PullAfter(db, b', mode, lost, stored + {item.addr})
  {
    hide Counter;
  }

  lemma StorePull(db: DB, b: DB, ids: map<nat, nat>, item: Item, mode: PutMode, change: int, now: Now,
                  lost: set<PullKey>, stored: set<Addr>)
    requires PullAfter(db, b, mode, lost, stored) && item.addr !in stored
    requires Binned(db, db.binIDs) && Grows(db.binIDs, db.binIDs + ids)
    ensures var s := StoreIn(db, b, ids, item, mode, change, now);
      s.PutOk? ==> PullAfter(db, s.b, mode, lost, stored + {item.addr})
  {
    var bin := db.po(item.addr);
    StoreWrites(db, b, ids, item, mode, change, now);
    NextIsNext(db, ids, bin);
    assert Counter(db.binIDs, bin) <= Counter(db.binIDs + ids, bin);
    hide StoreIn, NextBinID, Counter, Writes, PullAfter, Binned;
    var s := StoreIn(db, b, ids, item, mode, change, now);
    if s.PutOk? { WritePull(db, b, s.b, mode, item, NextBinID(db, ids, bin), lost, stored); }
  }

  lemma TakePull(db: DB, b: DB, b': DB, p: Addr, mode: PutMode, lost: set<PullKey>, stored: set<Addr>)
    requires PullAfter(db, b, mode, lost, stored) && TakesAway(db, b, b', p) && stored !! db.core.data.Keys
    requires Binned(db, db.binIDs)
    requires forall x :: x in stored && x in b.core.data ==> b.core.data[x].binID > Counter(db.binIDs, db.po(x))
    ensures PullAfter(db, b', mode, lost + {PullKeyOf(db, p)}, stored)
  {
    hide Counter;
  }

  lemma CollisionPull(db: DB, b: DB, item: Item, mode: PutMode, lost: set<PullKey>, stored: set<Addr>)
    requires PullAfter(db, b, mode, lost, stored) && stored !! db.core.data.Keys && Binned(db, db.binIDs)
    requires forall x :: x in stored && x in b.core.data ==> b.core.data[x].binID > Counter(db.binIDs, db.po(x))
    requires item.addr !in db.core.data
    ensures var col := CollisionIn(db, b, item);
      col.Replaced? ==>
        && ReplacedBy(db, item).Some? && ReplacedBy(db, item).value in db.core.data
        && PullAfter(db, col.b, mode, lost + {PullKeyOf(db, ReplacedBy(db, item).value)}, stored)
  {
    hide Counter, CollisionIn, PullAfter, Binned, TakesAway;
    CollisionTakes(db, b, item);
    var col := CollisionIn(db, b, item);
    if col.Replaced? {
      InTheWay(db, b, col.b, ReplacedBy(db, item).value);
      TakePull(db, b, col.b, ReplacedBy(db, item).value, mode, lost, stored);
    }
  }

  lemma InTheWay(db: DB, b: DB, b': DB, p: Addr)
    requires TakesAway(db, b, b', p)
    ensures p in db.core.data
  {}

  /** The place of a chunk the item replaces. */
  ghost function LostKey(db: DB, item: Item): set<PullKey> {
    set x | x in Replaces(db, item) && x in db.core.data :: PullKeyOf(db, x)
  }

  lemma StoredAbove(db: DB, b: DB, ids: map<nat, nat>, stored: set<Addr>)
    requires BinsKept(db, b, ids) && stored !! db.core.data.Keys
    ensures forall x :: x in stored && x in b.core.data ==> b.core.data[x].binID > Counter(db.binIDs, db.po(x))
  {
    hide Counter, Binned, Grows;
    forall x | x in stored && x in b.core.data ensures b.core.data[x].binID > Counter(db.binIDs, db.po(x)) {
      assert x !in db.core.data;
    }
  }

  lemma NothingLost(db: DB, item: Item)
    requires NoReplacement(db, item)
    ensures LostKey(db, item) == {}
  {}

  lemma LostOne(db: DB, item: Item)
    requires !NoReplacement(db, item)
    ensures var p := ReplacedBy(db, item).value; p in db.core.data ==> LostKey(db, item) == {PullKeyOf(db, p)}
  {}

  lemma ItemPull(db: DB, b: DB, ids: map<nat, nat>, item: Item, mode: PutMode, now: Now, lost: set<PullKey>,
                 stored: set<Addr>)
    requires PullAfter(db, b, mode, lost, stored) && stored !! db.core.data.Keys && item.addr !in stored
    requires Binned(db, db.binIDs) && BinsKept(db, b, ids)
    ensures var s := PutIn(db, b, ids, item, mode, now);
      s.PutOk? ==>
        PullAfter(db, s.b, mode, lost + LostKey(db, item), stored + if IsNew(db, item) then {item.addr} else {})
  {
    assert Grows(db.binIDs, db.binIDs + ids);
    hide PutIn, StoreIn, CollisionIn, RemoveIn, PullAfter, IsNew, Binned, NotStoredIn, Grows, BinsKept, NoReplacement,
         LostKey;
    if !IsNew(db, item) {
      PutSkips(db, b, ids, item, mode, now);
      NothingLost(db, item);
      NotStoredPull(db, b, ids, item, mode, lost, stored);
      assert lost + {} == lost && stored + {} == stored;
    } else {
      NewIsAbsent(db, item);
      if NoReplacement(db, item) {
        PutStores(db, b, ids, item, mode, now);
        NothingLost(db, item);
        assert lost + {} == lost;
        StorePull(db, b, ids, item, mode, 0, now, lost, stored);
      } else {
        PutReplaces(db, b, ids, item, mode, now);
        ReplacingPull(db, b, ids, item, mode, now, lost, stored);
      }
    }
  }

  lemma ReplacingPull(db: DB, b: DB, ids: map<nat, nat>, item: Item, mode: PutMode, now: Now, lost: set<PullKey>,
                      stored: set<Addr>)
    requires PullAfter(db, b, mode, lost, stored) && stored !! db.core.data.Keys && item.addr !in stored
    requires Binned(db, db.binIDs) && BinsKept(db, b, ids)
    requires item.addr !in db.core.data && !NoReplacement(db, item)
    ensures var col := CollisionIn(db, b, item);
      col.Replaced? ==>
        var s := StoreIn(db, col.b, ids, item, mode, col.change, now);
        s.PutOk? ==> PullAfter(db, s.b, mode, lost + LostKey(db, item), stored + {item.addr})
  {
    assert Grows(db.binIDs, db.binIDs + ids);
    hide StoreIn, CollisionIn, PullAfter, Binned, Grows, BinsKept, LostKey;
    StoredAbove(db, b, ids, stored);
    CollisionPull(db, b, item, mode, lost, stored);
    LostOne(db, item);
    var col := CollisionIn(db, b, item);
    if col.Replaced? { StorePull(db, col.b, ids, item, mode, col.change, now, lost + LostKey(db, item), stored); }
  }

  lemma NotStoredPull(db: DB, b: DB, ids: map<nat, nat>, item: Item, mode: PutMode, lost: set<PullKey>,
                      stored: set<Addr>)
    requires PullAfter(db, b, mode, lost, stored)
    ensures forall existed :: var s := NotStoredIn(db, b, ids, item, mode, existed);
              s.PutOk? ==> PullAfter(db, s.b, mode, lost, stored)
  {
    forall existed: bool
      ensures var s := NotStoredIn(db, b, ids, item, mode, existed); s.PutOk? ==> PullAfter(db, s.b, mode, lost, stored)
    {
      NotStoredFrame(db, b, ids, item, mode, existed);
      hide NotStoredIn;
    }
  }

  lemma LostKeysNext(db: DB, items: seq<Item>)
    requires items != []
    ensures var n := |items| - 1;
      LostKeys(db, items) == LostKeys(db, items[..n]) + if First(items, n) then LostKey(db, items[n]) else {}
  {
    hide Replaces, First;
  }

  lemma NotStoredYet(db: DB, items: seq<Item>)
    requires items != [] && First(items, |items| - 1)
    ensures items[|items| - 1].addr !in Stored(db, items[..|items| - 1])
  {
    var n := |items| - 1;
    forall i | 0 <= i < n ensures items[..n][i].addr != items[n].addr { NotAgain(items, i, n); }
    OnlyThese(db, items[..n], items[n].addr);
  }

  /** Over a whole call: the pull index keeps everything but the places of the replaced chunks. */
  lemma {:induction false} CallPull(db: DB, mode: PutMode, items: seq<Item>, times: seq<Now>)
    requires Binned(db, db.binIDs) && |times| == |items|
    ensures var r := PutAll(db, mode, items, times);
      r.PutOk? ==> PullAfter(db, r.b, mode, LostKeys(db, items), Stored(db, items))
    decreases |items|
  {
    hide PutIn, IsNew, Binned, BinsKept, PullAfter, LostKey, Stored, LostKeys;
    if items == [] {
      NothingPulled(db, mode);
    } else {
      hide PutAll, First;
      var n := |items| - 1;
      CallPull(db, mode, items[..n], times[..n]);
      var r := PutAll(db, mode, items[..n], times[..n]);
      PutNext(db, mode, items, times);
      PutAllBinned(db, mode, items[..n], times[..n]);
      LostKeysNext(db, items);
      StoredNext(db, items);
      NewOnes(db, items[..n]);
      if r.PutOk? {
        if First(items, n) {
          NotStoredYet(db, items);
          ItemPull(db, r.b, r.ids, items[n], mode, times[n], LostKeys(db, items[..n]), Stored(db, items[..n]));
        } else {
          assert LostKeys(db, items[..n]) + {} == LostKeys(db, items[..n]);
          assert Stored(db, items[..n]) + {} == Stored(db, items[..n]);
        }
      }
    }
  }

  lemma StoredNext(db: DB, items: seq<Item>)
    requires items != []
    ensures var n := |items| - 1;
      Stored(db, items) ==
        Stored(db, items[..n]) + if First(items, n) && IsNew(db, items[n]) then {items[n].addr} else {}
  {}

  lemma NothingPulled(db: DB, mode: PutMode)
    ensures PullAfter(db, db, mode, LostKeys(db, []), Stored(db, []))
  {
    assert LostKeys(db, []) == {};
  }

  /**
  After a put that succeeds, each new chunk has the stamp of its item and a new id of its bin, and is listed in the
  pull index unless it is only cached; every old entry of the pull index stays, except at the places of replaced
  chunks, and no other entry appears.
  */
  lemma PutLists(db: DB, mode: PutMode, items: seq<Item>, times: seq<Now>)
    requires Binned(db, db.binIDs) && |times| == |items| && PutAll(db, mode, items, times).PutOk?
    ensures var db' := Put(db, mode, items, times);
      && (forall i :: 0 <= i < |items| && First(items, i) && IsNew(db, items[i]) ==> Entered(db, db', mode, items[i]))
      && (forall k :: k in db.pull && k !in LostKeys(db, items) ==> k in db'.pull && db'.pull[k] == db.pull[k])
      && (forall k :: k in db'.pull && !(k in db.pull && k !in LostKeys(db, items)) ==>
            mode != PutRequestCache && db'.pull[k] in Stored(db, items) && Listed(db', db'.pull[k])
            && k == PullKeyOf(db', db'.pull[k]))
  {
    var db' := Put(db, mode, items, times);
    var r := PutAll(db, mode, items, times);
    hide PutAll, IsNew, Binned, LostKeys, Stored, First;
    CallPull(db, mode, items, times);
    forall i | 0 <= i < |items| && First(items, i) && IsNew(db, items[i])
      ensures Entered(db, db', mode, items[i])
    {
      AllEntered(db, mode, items, times, i);
    }
    hide Entered;
  }

  // ---------------------------------------------------------------- bin counters

  function InBin(db: DB, stored: set<Addr>, bin: nat): set<Addr> { set a | a in stored && db.po(a) == bin }

  lemma {:induction false} CallCounters(db: DB, mode: PutMode, items: seq<Item>, times: seq<Now>, bin: nat)
    requires |times| == |items|
    ensures var r := PutAll(db, mode, items, times);
      r.PutOk? ==> Counter(db.binIDs + r.ids, bin) == Counter(db.binIDs, bin) + |InBin(db, Stored(db, items), bin)|
    decreases |items|
  {
    hide PutIn, IsNew, First, InBin, Stored, Counter;
    if items == [] {
      assert db.binIDs + map[] == db.binIDs && InBin(db, Stored(db, []), bin) == {} by { NoneStored(db, bin); }
    } else {
      hide PutAll;
      var n := |items| - 1;
      CallCounters(db, mode, items[..n], times[..n], bin);
      PutNext(db, mode, items, times);
      StoredNext(db, items);
      var r := PutAll(db, mode, items[..n], times[..n]);
      if r.PutOk? && First(items, n) {
        NotStoredYet(db, items);
        ItemCounts(db, r.b, r.ids, items[n], mode, times[n], bin);
        StoredInBin(db, Stored(db, items[..n]), items[n].addr, bin);
      } else if r.PutOk? {
        assert Stored(db, items) == Stored(db, items[..n]);
      }
      if r.PutOk? && !IsNew(db, items[n]) { assert Stored(db, items) == Stored(db, items[..n]); }
    }
  }

  lemma NoneStored(db: DB, bin: nat)
    ensures InBin(db, Stored(db, []), bin) == {}
  {}

  lemma StoredInBin(db: DB, stored: set<Addr>, a: Addr, bin: nat)
    requires a !in stored
    ensures |InBin(db, stored + {a}, bin)| == |InBin(db, stored, bin)| + if db.po(a) == bin then 1 else 0
  {
    assert InBin(db, stored + {a}, bin) == InBin(db, stored, bin) + if db.po(a) == bin then {a} else {};
    assert a !in InBin(db, stored, bin);
  }

  lemma ItemCounts(db: DB, b: DB, ids: map<nat, nat>, item: Item, mode: PutMode, now: Now, bin: nat)
    ensures var s := PutIn(db, b, ids, item, mode, now);
      s.PutOk? ==>
        Counter(db.binIDs + s.ids, bin) ==
          Counter(db.binIDs + ids, bin) + if IsNew(db, item) && db.po(item.addr) == bin then 1 else 0
  {
    hide PutIn, StoreIn, NotStoredIn, CollisionIn, RemoveIn, IsNew;
    if !IsNew(db, item) {
      PutSkips(db, b, ids, item, mode, now);
      forall existed: bool ensures var s := NotStoredIn(db, b, ids, item, mode, existed); s.PutOk? ==> s.ids == ids {
        NotStoredFrame(db, b, ids, item, mode, existed);
      }
    } else if NoReplacement(db, item) {
      PutStores(db, b, ids, item, mode, now);
      StoreCounts(db, b, ids, item, mode, 0, now, bin);
    } else {
      PutReplaces(db, b, ids, item, mode, now);
      var col := CollisionIn(db, b, item);
      if col.Replaced? { StoreCounts(db, col.b, ids, item, mode, col.change, now, bin); }
    }
  }

  lemma StoreCounts(db: DB, b: DB, ids: map<nat, nat>, item: Item, mode: PutMode, change: int, now: Now, bin: nat)
    ensures var s := StoreIn(db, b, ids, item, mode, change, now);
      s.PutOk? ==>
        Counter(db.binIDs + s.ids, bin) ==
          Counter(db.binIDs + ids, bin) + if db.po(item.addr) == bin then 1 else 0
  {
    hide NewIn;
  }

  /** A bin's counter goes up, from 0 if it has none, by the number of chunks stored in the bin; no id is skipped. */
  lemma PutCounts(db: DB, mode: PutMode, items: seq<Item>, times: seq<Now>, bin: nat)
    requires |times| == |items|
    ensures var stored := if PutAll(db, mode, items, times).PutOk? then Stored(db, items) else {};
      var was, ids := if bin in db.binIDs then db.binIDs[bin] else 0, Put(db, mode, items, times).binIDs;
      (if bin in ids then ids[bin] else 0) == was + |InBin(db, stored, bin)|
  {
    hide PutAll, Stored;
    CallCounters(db, mode, items, times, bin);
    assert InBin(db, {}, bin) == {};
  }
}
