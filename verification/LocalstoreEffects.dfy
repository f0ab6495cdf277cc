/** What a put call does to the core indexes under each address. */
module LocalstoreEffects {
  import opened Localstore
  import opened LocalstoreInv
  import opened LocalstoreBatch
  import opened LocalstorePut
  import opened LocalstorePutInv
  import opened LocalstoreRepeat
  import opened LocalstoreReplace
  import opened LocalstoreHeld
  import opened LocalstorePins
  import opened LocalstoreEntries
  import opened LocalstoreStamps

  /**
  How a new chunk is kept, after a call between t and t': an upload waits to be synced and has no access time; any other
  chunk has an access time from the call; it is pinned once more if it is reserved, and is collectable if it is cached.
  */
  ghost predicate Placed(db: DB, c: Core, mode: PutMode, item: Item, t: int, t': int) {
    var a := item.addr;
    && a in c.data && t < c.data[a].storeTs <= t'
    && (Waits(c, a) <==> Uploads(mode))
    && (a in c.access <==> !Uploads(mode)) && (a in c.access ==> t < c.access[a] <= t')
    && Pins(c, a) == Pins(db.core, a) + (if Reserves(db, mode, item) then 1 else 0)
    && (Collectable(c, a) <==> Cached(db, mode, item)) && (!Collectable(c, a) ==> NotInGc(c, a))
  }

  lemma NewPlaced(db: DB, b: Core, item: Item, d: Data, access: int, mode: PutMode, t: int)
    requires AgreeAt(db.core, t, item.addr) && SameAt(db.core, b, item.addr) && IsNew(db, item)
    requires t < d.storeTs < access
    ensures var s := NewIn(db.core, b, item.addr, d, access, db.po(item.addr) >= item.radius, mode);
      s.Ok? ==> Placed(db, s.b, mode, item, t, access)
  {
    var a := item.addr;
    if Uploads(mode) {
      UploadPlaced(db, b, item, d, mode, t, access);
    } else if Reserves(db, mode, item) {
      ReservedPlaced(db, b, item, d, access, mode, t);
    } else {
      CachedPlaced(db, b, item, d, access, mode, t);
    }
    hide PinIn, CacheIn, AgreeAt, SameAt, Placed, IsNew, Cached, NewUpload;
  }

  lemma UploadPlaced(db: DB, b: Core, item: Item, d: Data, mode: PutMode, t: int, t': int)
    requires AgreeAt(db.core, t, item.addr) && SameAt(db.core, b, item.addr) && IsNew(db, item) && Uploads(mode)
    requires t < d.storeTs < t'
    ensures var u := NewUpload(b, item.addr, d);
      if mode == PutUpload then Placed(db, u, mode, item, t, t')
      else var s := PinIn(db.core, u, item.addr); s.Ok? ==> Placed(db, s.b, mode, item, t, t')
  {}

  lemma ReservedPlaced(db: DB, b: Core, item: Item, d: Data, access: int, mode: PutMode, t: int)
    requires AgreeAt(db.core, t, item.addr) && SameAt(db.core, b, item.addr) && IsNew(db, item)
    requires t < d.storeTs < access && !Uploads(mode) && Reserves(db, mode, item)
    ensures var a := item.addr;
      var s := PinIn(db.core, AccessPut(DataPut(b, a, d), a, access), a);
      s.Ok? ==> Placed(db, s.b, mode, item, t, access)
  {}

  lemma CachedPlaced(db: DB, b: Core, item: Item, d: Data, access: int, mode: PutMode, t: int)
    requires AgreeAt(db.core, t, item.addr) && SameAt(db.core, b, item.addr) && IsNew(db, item)
    requires t < d.storeTs < access && !Uploads(mode) && !Reserves(db, mode, item)
    ensures var a := item.addr;
      var s := CacheIn(db.core, AccessPut(DataPut(b, a, d), a, access), a, access, d);
      s.Ok? ==> Placed(db, s.b, mode, item, t, access)
  {}

  lemma SamePlaced(db: DB, c: Core, e: Core, mode: PutMode, item: Item, t: int, t1: int, t2: int)
    requires Placed(db, c, mode, item, t, t1) && SameAt(c, e, item.addr) && t1 <= t2
    ensures Placed(db, e, mode, item, t, t2)
  {}

  lemma NewElsewhere(db: Core, b: Core, a: Addr, d: Data, access: int, within: bool, mode: PutMode, x: Addr)
    requires x != a
    ensures SameAt(b, NewIn(db, b, a, d, access, within, mode).b, x)
  {
    hide OnlyAt, DataPut, AccessPut, PushPut, PinIn, CacheIn, SameAt;
    var b1 := DataPut(b, a, d);
    var pushed, accessed := PushPut(b1, PushKey(d.storeTs, a)), AccessPut(b1, a, access);
    DataWrites(b, a, d);
    PushWrites(b1, PushKey(d.storeTs, a));
    AccessWrites(b1, a, access);
    OnlyAtTrans(b, b1, pushed, a);
    OnlyAtTrans(b, b1, accessed, a);
    PinOnlyAt(db, b, pushed, a);
    PinOnlyAt(db, b, accessed, a);
    CacheOnlyAt(db, b, accessed, a, access, d);
    NotHere(b, NewIn(db, b, a, d, access, within, mode).b, a, x);
  }

  lemma NotHere(b: Core, e: Core, a: Addr, x: Addr)
    requires OnlyAt(b, e, a) && x != a
    ensures SameAt(b, e, x)
  {}

  lemma StoreElsewhere(db: DB, b: DB, ids: map<nat, nat>, item: Item, mode: PutMode, change: int, now: Now, x: Addr)
    requires x != item.addr
    ensures var s := StoreIn(db, b, ids, item, mode, change, now); s.PutOk? ==> SameAt(b.core, s.b.core, x)
  {
    hide NewIn, SameAt, NextBinID;
    var bin := db.po(item.addr);
    var d := Data(now.store, NextBinID(db, ids, bin), item.batch, item.index, item.stampTs);
    NewElsewhere(db.core, b.core, item.addr, d, now.access, bin >= item.radius, mode, x);
  }

  lemma RemoveElsewhere(db: Core, b: Core, p: Addr, x: Addr)
    requires x != p
    ensures SameAt(b, RemoveIn(db, b, p).b, x)
  {}

  lemma PinsElsewhere(db: Core, b: Core, a: Addr, x: Addr)
    requires x != a
    ensures SameAt(b, PinIn(db, b, a).b, x)
  {}

  lemma NotStoredElsewhere(db: DB, b: DB, ids: map<nat, nat>, item: Item, mode: PutMode, x: Addr)
    requires x != item.addr
    ensures forall existed :: var s := NotStoredIn(db, b, ids, item, mode, existed);
              s.PutOk? ==> SameAt(b.core, s.b.core, x)
  {
    PinsElsewhere(db.core, b.core, item.addr, x);
    hide PinIn;
  }

  /** An item leaves alone every chunk but its own and the one it replaces. */
  lemma ItemElsewhere(db: DB, b: DB, ids: map<nat, nat>, item: Item, mode: PutMode, now: Now, x: Addr)
    requires x != item.addr && x !in Replaces(db, item)
    ensures var s := PutIn(db, b, ids, item, mode, now); s.PutOk? ==> SameAt(b.core, s.b.core, x)
  {
    hide PutIn, StoreIn, CollisionIn, RemoveIn, IsNew, NotStoredIn, SameAt;
    if !IsNew(db, item) {
      PutSkips(db, b, ids, item, mode, now);
      NotStoredElsewhere(db, b, ids, item, mode, x);
    } else if NoReplacement(db, item) {
      PutStores(db, b, ids, item, mode, now);
      StoreElsewhere(db, b, ids, item, mode, 0, now, x);
    } else {
      PutReplaces(db, b, ids, item, mode, now);
      RemoveElsewhere(db.core, b.core, ReplacedBy(db, item).value, x);
      var col := CollisionIn(db, b, item);
      if col.Replaced? {
        StoreElsewhere(db, col.b, ids, item, mode, col.change, now, x);
        var s := StoreIn(db, col.b, ids, item, mode, col.change, now);
        if s.PutOk? { SameTrans(b.core, col.b.core, s.b.core, x); }
      }
    }
  }

  lemma StorePlaces(db: DB, b: DB, ids: map<nat, nat>, item: Item, mode: PutMode, change: int, now: Now, t: int)
    requires AgreeAt(db.core, t, item.addr) && SameAt(db.core, b.core, item.addr) && IsNew(db, item)
    requires t < now.store < now.access
    ensures var s := StoreIn(db, b, ids, item, mode, change, now);
      s.PutOk? ==> Placed(db, s.b.core, mode, item, t, now.access)
  {
    hide NewIn, SameAt, AgreeAt, NextBinID, Placed, IsNew;
    var bin := db.po(item.addr);
    var d := Data(now.store, NextBinID(db, ids, bin), item.batch, item.index, item.stampTs);
    NewPlaced(db, b.core, item, d, now.access, mode, t);
  }

  lemma ItemPlaces(db: DB, b: DB, ids: map<nat, nat>, item: Item, mode: PutMode, now: Now, t: int)
    requires AgreeAt(db.core, t, item.addr) && SameAt(db.core, b.core, item.addr) && IsNew(db, item)
    requires t < now.store < now.access
    ensures var s := PutIn(db, b, ids, item, mode, now);
      s.PutOk? ==> Placed(db, s.b.core, mode, item, t, now.access)
  {
    hide PutIn, StoreIn, CollisionIn, RemoveIn, IsNew, SameAt, AgreeAt, Placed;
    if NoReplacement(db, item) {
      PutStores(db, b, ids, item, mode, now);
      StorePlaces(db, b, ids, item, mode, 0, now, t);
    } else {
      PutReplaces(db, b, ids, item, mode, now);
      NewIsAbsent(db, item);
      CollisionTakes(db, b, item);
      var col := CollisionIn(db, b, item);
      if col.Replaced? {
        var p := ReplacedBy(db, item).value;
        InTheWay(db, b, col.b, p);
        RemoveElsewhere(db.core, b.core, p, item.addr);
        SameTrans(db.core, b.core, col.b.core, item.addr);
        StorePlaces(db, col.b, ids, item, mode, col.change, now, t);
      }
    }
  }

  /** A chunk that is not stored and that no earlier item has given is untouched. */
  lemma NotYet(db: DB, mode: PutMode, items: seq<Item>, times: seq<Now>, t: int, x: Addr)
    requires Agree(db.core, t) && |times| == |items| && Ticking(times, t)
    requires x !in db.core.data && x !in AddrSet(items)
    ensures var r := PutAll(db, mode, items, times); r.PutOk? ==> SameAt(db.core, r.b.core, x)
  {
    CallShape(db, mode, items, times, t);
    hide PutAll, SameAt, AgreeAt, AddrSet;
    var r := PutAll(db, mode, items, times);
    if r.PutOk? { assert ShapeAt(db.core, r.b.core, AddrSet(items), EndTime(times, t), x); }
  }

  /** Every new item of a call that succeeds. */
  lemma {:induction false} AllPlaced(db: DB, mode: PutMode, items: seq<Item>, times: seq<Now>, t: int, i: nat)
    requires Agree(db.core, t) && |times| == |items| && Ticking(times, t) && i < |items| && Stores(db, items, i)
    ensures var r := PutAll(db, mode, items, times);
      r.PutOk? ==> Placed(db, r.b.core, mode, items[i], t, EndTime(times, t))
    decreases |items|
  {
    hide PutIn, IsNew, PutAll, SameAt, AgreeAt, Placed, First, AddrSet;
    var n := |items| - 1;
    var r := PutAll(db, mode, items[..n], times[..n]);
    LastTick(times, t, n);
    PutNext(db, mode, items, times);
    NewIsAbsent(db, items[i]);
    if r.PutOk? {
      if i == n {
        Addresses(items);
        NotYet(db, mode, items[..n], times[..n], t, items[n].addr);
        assert AgreeAt(db.core, t, items[n].addr);
        ItemPlaces(db, r.b, r.ids, items[n], mode, times[n], t);
      } else {
        StoresPrefix(db, items, n, i);
        AllPlaced(db, mode, items[..n], times[..n], t, i);
        if First(items, n) {
          NotAgain(items, i, n);
          PlacedStays(db, r.b, r.ids, mode, items[n], times[n], items[i], t, EndTime(times[..n], t));
        } else {
          SameEverywhere(r.b.core);
          SamePlaced(db, r.b.core, r.b.core, mode, items[i], t, EndTime(times[..n], t), EndTime(times, t));
        }
      }
    }
  }

  lemma PlacedStays(db: DB, b: DB, ids: map<nat, nat>, mode: PutMode, item: Item, now: Now, other: Item, t: int,
                    t1: int)
    requires Placed(db, b.core, mode, other, t, t1) && other.addr != item.addr && other.addr !in db.core.data
    requires t1 <= now.access
    ensures var s := PutIn(db, b, ids, item, mode, now); s.PutOk? ==> Placed(db, s.b.core, mode, other, t, now.access)
  {
    hide PutIn, SameAt, Placed;
    var s := PutIn(db, b, ids, item, mode, now);
    if s.PutOk? {
      ItemData(db, b, ids, item, mode, now);
      ItemElsewhere(db, b, ids, item, mode, now, other.addr);
      SamePlaced(db, b.core, s.b.core, mode, other, t, t1, now.access);
    }
  }

  // ---------------------------------------------------------------- chunks that are not stored by the call

  /** put only pins a chunk that it does not store: PutUploadPin the ones it was given. */
  ghost predicate Untouched(db: DB, c: Core, mode: PutMode, addrs: set<Addr>, x: Addr) {
    if mode == PutUploadPin && x in addrs then SameAt(PinIn(db.core, db.core, x).b, c, x) else SameAt(db.core, c, x)
  }

  lemma NotStoredItem(db: DB, b: DB, ids: map<nat, nat>, item: Item, mode: PutMode, now: Now)
    requires !IsNew(db, item) && SameAt(db.core, b.core, item.addr)
    ensures var s := PutIn(db, b, ids, item, mode, now);
      s.PutOk? ==> Untouched(db, s.b.core, mode, {item.addr}, item.addr)
  {
    PutSkips(db, b, ids, item, mode, now);
    PinInSame(db.core, db.core, b.core, item.addr);
    hide PutIn, SameAt, PinIn, IsNew;
  }

  lemma {:induction false} OthersUntouched(db: DB, mode: PutMode, items: seq<Item>, times: seq<Now>, x: Addr)
    requires |times| == |items| && x !in Lost(db, items) && x !in Stored(db, items)
    ensures var r := PutAll(db, mode, items, times); r.PutOk? ==> Untouched(db, r.b.core, mode, AddrSet(items), x)
    decreases |items|
  {
    hide PutIn, IsNew, SameAt, First, PinIn, Replaces, AddrSet;
    if items == [] {
      SameEverywhere(db.core);
      assert AddrSet(items) == {} by { NoAddresses(); }
    } else {
      hide PutAll;
      var n := |items| - 1;
      OthersUntouched(db, mode, items[..n], times[..n], x);
      PutNext(db, mode, items, times);
      Addresses(items);
      var r := PutAll(db, mode, items[..n], times[..n]);
      if r.PutOk? && First(items, n) {
        var s := PutIn(db, r.b, r.ids, items[n], mode, times[n]);
        if x == items[n].addr {
          NotStoredItem(db, r.b, r.ids, items[n], mode, times[n]);
        } else if s.PutOk? {
          ItemElsewhere(db, r.b, r.ids, items[n], mode, times[n], x);
          if mode == PutUploadPin && x in AddrSet(items) {
            SameTrans(PinIn(db.core, db.core, x).b, r.b.core, s.b.core, x);
          } else {
            SameTrans(db.core, r.b.core, s.b.core, x);
          }
        }
      }
    }
  }

  lemma NoAddresses()
    ensures AddrSet([]) == {}
  {}

  // ---------------------------------------------------------------- replaced chunks

  lemma {:induction false} LostWereHeld(db: DB, mode: PutMode, items: seq<Item>, times: seq<Now>)
    requires |times| == |items|
    ensures PutAll(db, mode, items, times).PutOk? ==> Lost(db, items) <= db.core.data.Keys
    decreases |items|
  {
    hide PutIn, First, Replaces;
    if items != [] {
      hide PutAll;
      var n := |items| - 1;
      LostWereHeld(db, mode, items[..n], times[..n]);
      PutNext(db, mode, items, times);
      var r := PutAll(db, mode, items[..n], times[..n]);
      if r.PutOk? && First(items, n) { ItemData(db, r.b, r.ids, items[n], mode, times[n]); }
    }
  }

  /** A replaced chunk is stored no more, and nothing is collectable under its address. */
  lemma LostAreGone(db: DB, mode: PutMode, items: seq<Item>, times: seq<Now>, t: int, x: Addr)
    requires Agree(db.core, t) && |times| == |items| && Ticking(times, t) && x in Lost(db, items)
    ensures var r := PutAll(db, mode, items, times); r.PutOk? ==> RemovedAt(db.core, r.b.core, x)
  {
    hide PutAll, RemovedAt, Lost, Stored;
    var r := PutAll(db, mode, items, times);
    if r.PutOk? {
      LostWereHeld(db, mode, items, times);
      HeldAfter(db, mode, items, times);
      NewOnes(db, items);
      CallShape(db, mode, items, times, t);
      assert ShapeAt(db.core, r.b.core, AddrSet(items), EndTime(times, t), x);
      assert x !in r.b.core.data;
      hide AgreeAt, AddrSet;
    }
  }

  /** Removing a chunk takes its pin: a collectable chunk had none. */
  lemma RemoveUnpins(db: Core, b: Core, x: Addr, t: int)
    requires AgreeAt(db, t, x) && (SameAt(db, b, x) || x !in b.pin)
    ensures var s := RemoveIn(db, b, x); s.Ok? ==> x !in s.b.pin
  {}

  lemma ReplacingUnpins(db: DB, b: DB, ids: map<nat, nat>, item: Item, mode: PutMode, now: Now, t: int, x: Addr)
    requires AgreeAt(db.core, t, x) && x in Replaces(db, item) && (SameAt(db.core, b.core, x) || x !in b.core.pin)
    ensures var s := PutIn(db, b, ids, item, mode, now); s.PutOk? ==> x !in s.b.core.pin
  {
    hide PutIn, StoreIn, CollisionIn, RemoveIn, SameAt, AgreeAt;
    assert IsNew(db, item);
    NewIsAbsent(db, item);
    PutReplaces(db, b, ids, item, mode, now);
    CollisionTakes(db, b, item);
    RemoveUnpins(db.core, b.core, x, t);
    var col := CollisionIn(db, b, item);
    if col.Replaced? {
      InTheWay(db, b, col.b, x);
      StoreElsewhere(db, col.b, ids, item, mode, col.change, now, x);
      var s := StoreIn(db, col.b, ids, item, mode, col.change, now);
      if s.PutOk? { SamePin(col.b.core, s.b.core, x); }
    }
  }

  lemma SamePin(c: Core, e: Core, x: Addr)
    requires SameAt(c, e, x)
    ensures x in e.pin <==> x in c.pin
  {}

  /** A replaced chunk is not pinned any more, unless PutUploadPin was given it too. */
  lemma {:induction false} LostAreUnpinned(db: DB, mode: PutMode, items: seq<Item>, times: seq<Now>, t: int, x: Addr)
    requires Agree(db.core, t) && |times| == |items| && x in Lost(db, items)
    requires mode != PutUploadPin || x !in AddrSet(items)
    ensures var r := PutAll(db, mode, items, times); r.PutOk? ==> x !in r.b.core.pin
    decreases |items|
  {
    hide PutIn, First, Replaces, SameAt, AgreeAt, PutAll, AddrSet;
    var n := |items| - 1;
    var r := PutAll(db, mode, items[..n], times[..n]);
    PutNext(db, mode, items, times);
    Addresses(items);
    if PutAll(db, mode, items, times).PutOk? {
      LostWereHeld(db, mode, items, times);
      NewOnes(db, items[..n]);
      assert AgreeAt(db.core, t, x);
      if x in Lost(db, items[..n]) {
        LostAreUnpinned(db, mode, items[..n], times[..n], t, x);
      } else {
        OthersUntouched(db, mode, items[..n], times[..n], x);
      }
      if First(items, n) {
        if x in Replaces(db, items[n]) {
          ReplacingUnpins(db, r.b, r.ids, items[n], mode, times[n], t, x);
        } else {
          StaysUnpinned(db, r.b, r.ids, items[n], mode, times[n], x);
        }
      }
    }
  }

  lemma StaysUnpinned(db: DB, b: DB, ids: map<nat, nat>, item: Item, mode: PutMode, now: Now, x: Addr)
    requires x !in b.core.pin && x in db.core.data && x !in Replaces(db, item)
    requires x == item.addr ==> mode != PutUploadPin
    ensures var s := PutIn(db, b, ids, item, mode, now); s.PutOk? ==> x !in s.b.core.pin
  {
    hide StoreIn, CollisionIn, SameAt;
    if x != item.addr {
      hide PutIn;
      ItemElsewhere(db, b, ids, item, mode, now, x);
      var s := PutIn(db, b, ids, item, mode, now);
      if s.PutOk? { SamePin(b.core, s.b.core, x); }
    }
  }

  // ---------------------------------------------------------------- the whole call

  lemma PinnedOnce(c: Core, d: Core, x: Addr, t: int, t': int)
    requires AgreeAt(c, t, x) && SameAt(PinIn(c, c, x).b, d, x) && t < t'
    ensures Done(c, d, SetPin, x, t, t')
  {
    hide AgreeAt, SameAt, Done, PinIn;
    PinAccepted(c, x, t);
    StepDone(c, SetPin, x, Now(t, t'), t);
    SameDone(c, PinIn(c, c, x).b, d, SetPin, x, t, t', t');
  }

  lemma PinAccepted(c: Core, x: Addr, t: int)
    requires AgreeAt(c, t, x)
    ensures PinIn(c, c, x).Ok?
  {}

  /** What became of a replaced chunk. */
  ghost predicate Gone(c: Core, mode: PutMode, addrs: set<Addr>, x: Addr) {
    x !in c.data && x !in c.access && NotInGc(c, x) && (mode != PutUploadPin || x !in addrs ==> x !in c.pin)
  }

  /**
  After a put that succeeds, every new chunk is kept as its mode and radius say, every replaced one is gone, and
  everything else is as it was, except that PutUploadPin pins what it was given and did not store.
  */
  lemma PutEffects(db: DB, mode: PutMode, items: seq<Item>, times: seq<Now>, t: int)
    requires Inv(db, t) && |times| == |items| && Ticking(times, t) && PutAll(db, mode, items, times).PutOk?
    ensures var c := Put(db, mode, items, times).core;
      && (forall i :: 0 <= i < |items| && Stores(db, items, i) ==>
            Placed(db, c, mode, items[i], t, EndTime(times, t)))
      && (forall x :: x in Lost(db, items) ==> Gone(c, mode, AddrSet(items), x))
      && (forall x :: x !in Lost(db, items) && x !in Stored(db, items) ==>
            if mode == PutUploadPin && x in AddrSet(items) then Done(db.core, c, SetPin, x, t, EndTime(times, t))
            else SameAt(db.core, c, x))
  {
    var c := Put(db, mode, items, times).core;
    hide AgreeAt, PutAll, Stores, SameAt, Placed, Done, Lost, Stored, AddrSet;
    forall i | 0 <= i < |items| && Stores(db, items, i) ensures Placed(db, c, mode, items[i], t, EndTime(times, t)) {
      AllPlaced(db, mode, items, times, t, i);
    }
    forall x | x in Lost(db, items) ensures Gone(c, mode, AddrSet(items), x) {
      LostAreGone(db, mode, items, times, t, x);
      if mode != PutUploadPin || x !in AddrSet(items) { LostAreUnpinned(db, mode, items, times, t, x); }
    }
    forall x | x !in Lost(db, items) && x !in Stored(db, items)
      ensures if mode == PutUploadPin && x in AddrSet(items) then Done(db.core, c, SetPin, x, t, EndTime(times, t))
              else SameAt(db.core, c, x)
    {
      OthersUntouched(db, mode, items, times, x);
      if mode == PutUploadPin && x in AddrSet(items) {
        assert AgreeAt(db.core, t, x);
        assert items != [] by { if items == [] { NoAddresses(); } }
        LastTick(times, t, |times| - 1);
        PinnedOnce(db.core, c, x, t, EndTime(times, t));
      }
    }
  }
}
