/** updateGC and unreserving: when they keep the indexes in agreement. */
module LocalstoreMore {
  import opened Localstore
  import opened LocalstoreInv
  import opened LocalstoreBatch

  // ---------------------------------------------------------------- updateGC

  lemma UpdateOnlyAt(c: Core, a: Addr, binID: nat, v: GcValue, now: int)
    ensures OnlyAt(c, UpdateGC(c, a, binID, v, now), a)
  {
    hide OnlyAt, GcDelete, GcPut, AccessPut;
    OnlyAtSelf(c, a);
    if a in c.access && c.access[a] != 0 {
      var k := GcKey(c.access[a], binID, a);
      var b := GcDelete(c, k);
      GcWrites(c, k, v);
      var b1 := if k in c.gc then GcPut(b, GcKey(now, binID, a), v) else b;
      if k in c.gc {
        GcWrites(b, GcKey(now, binID, a), v);
        OnlyAtTrans(c, b, b1, a);
      }
      AccessWrites(b1, a, now);
      OnlyAtTrans(c, b1, AccessPut(b1, a, now), a);
    }
  }

  /** The item handed to updateGC still describes the chunk, or the chunk is not collectable anyway. */
  predicate Current(c: Core, a: Addr, binID: nat) {
    a in c.access && a in c.data ==> binID == c.data[a].binID || a in c.pin
  }

  lemma UpdateCounts(c: Core, a: Addr, binID: nat, v: GcValue, now: int, t: int)
    requires AgreeAt(c, t, a) && 0 <= t < now
    ensures |UpdateGC(c, a, binID, v, now).gc| == |c.gc|
  {
    if a in c.access {
      var k := GcKey(c.access[a], binID, a);
      CardRemove(c.gc, k);
      CardAdd(c.gc - {k}, GcKey(now, binID, a), v);
    }
  }

  /** updateGC keeps the indexes about the chunk in agreement exactly when it is given a current item. */
  lemma UpdateAgrees(c: Core, a: Addr, binID: nat, v: GcValue, now: int, t: int)
    requires AgreeAt(c, t, a) && 0 <= t < now
    ensures AgreeAt(UpdateGC(c, a, binID, v, now), now, a) <==> Current(c, a, binID)
  {
    var d := UpdateGC(c, a, binID, v, now);
    if !Current(c, a, binID) {
      assert GcKey(c.access[a], c.data[a].binID, a) in d.gc;
    }
  }

  lemma UpdateInv(db: DB, a: Addr, binID: nat, v: GcValue, now: int, t: int)
    requires Inv(db, t) && t < now
    ensures Inv(db.(core := UpdateGC(db.core, a, binID, v, now)), now) <==> Current(db.core, a, binID)
    ensures forall x :: x != a ==> SameAt(db.core, UpdateGC(db.core, a, binID, v, now), x)
  {
    var d := UpdateGC(db.core, a, binID, v, now);
    assert AgreeAt(db.core, t, a);
    UpdateOnlyAt(db.core, a, binID, v, now);
    UpdateCounts(db.core, a, binID, v, now, t);
    UpdateAgrees(db.core, a, binID, v, now, t);
    hide UpdateGC, AgreeAt, SameAt;
    if Current(db.core, a, binID) {
      AgreeAfter(db.core, d, a, t, now);
    } else {
      assert !AgreeAt(d, now, a);
    }
  }

  /** What updateGC writes about the chunk. */
  lemma UpdateAt(c: Core, a: Addr, binID: nat, v: GcValue, now: int, t: int)
    requires AgreeAt(c, t, a) && t < now && Current(c, a, binID)
    ensures var d := UpdateGC(c, a, binID, v, now);
      && d.data == c.data && d.pin == c.pin && d.push == c.push && (a !in c.access ==> d == c)
      && (a in c.access ==> d.access == c.access[a := now])
      && (a in c.access && a in c.pin ==> d.gc == c.gc)
      && (a in c.access && a !in c.pin ==>
            var k := GcKey(now, c.data[a].binID, a);
            && k in d.gc && d.gc[k] == v && (forall j :: j in d.gc && j.addr == a ==> j == k))
  {}

  /**
  A read of a chunk with an access time makes that time now, and a collectable chunk the last to be collected: every
  other entry of the gc index is older.
  */
  lemma UpdateMovesLast(db: DB, a: Addr, binID: nat, v: GcValue, now: int, t: int)
    requires Inv(db, t) && t < now && Current(db.core, a, binID) && a in db.core.access
    ensures var d := UpdateGC(db.core, a, binID, v, now);
      && a in db.core.data && d.data == db.core.data && d.pin == db.core.pin && d.access == db.core.access[a := now]
      && (a !in db.core.pin ==>
            && GcKey(now, db.core.data[a].binID, a) in d.gc && d.gc[GcKey(now, db.core.data[a].binID, a)] == v
            && forall k :: k in d.gc && k != GcKey(now, db.core.data[a].binID, a) ==> k.addr != a && k.access < now)
  {
    var d := UpdateGC(db.core, a, binID, v, now);
    assert AgreeAt(db.core, t, a);
    UpdateAt(db.core, a, binID, v, now, t);
    UpdateInv(db, a, binID, v, now, t);
    forall k | k in d.gc && k.addr != a ensures k.access < now {
      assert SameAt(db.core, d, k.addr) && AgreeAt(db.core, t, k.addr);
      assert k in db.core.gc;
    }
    hide UpdateGC;
  }

  /** A stale item breaks it: chunk 7 was removed and stored again under BinID 2 after the item was read. */
  lemma StaleUpdateBreaks(po: Addr -> nat)
    ensures var db := DB(po,
                         Core(map[7 := Data(1, 2, 0, 0, 0)], map[7 := 2], {},
                              map[GcKey(2, 2, 7) := GcValue(0, 0)], map[]),
                         map[], {}, map[], map[], map[], 1);
      Inv(db, 2) && !Inv(db.(core := UpdateGC(db.core, 7, 1, GcValue(0, 0), 3)), 3)
  {
    var db := DB(po, Core(map[7 := Data(1, 2, 0, 0, 0)], map[7 := 2], {}, map[GcKey(2, 2, 7) := GcValue(0, 0)], map[]),
                 map[], {}, map[], map[], map[], 1);
    assert GcKey(2, 2, 7) in db.core.gc;
    UpdateInv(db, 7, 1, GcValue(0, 0), 3, 2);
  }

  // ---------------------------------------------------------------- unreserve

  lemma {:induction false} UnpinAllKept(db: Core, addrs: seq<Addr>, times: seq<Now>, t: int)
    requires Agree(db, t) && |times| == |addrs| && Distinct(addrs) && Ticking(times, t)
    ensures BatchKept(db, UnpinAll(db, addrs, times).0, UnpinAll(db, addrs, times).1, addrs, EndTime(times, t))
    ensures forall k :: k in db.gc ==> k in UnpinAll(db, addrs, times).0.gc
    decreases |addrs|
  {
    hide AgreeAt, UnpinIn, SameAt;
    if addrs == [] {
      BatchStart(db, t);
    } else {
      var n := |addrs| - 1;
      var a, now := addrs[n], times[n];
      LastTick(times, t, n);
      UnpinAllKept(db, addrs[..n], times[..n], t);
      var (b, change) := UnpinAll(db, addrs[..n], times[..n]);
      var t1 := EndTime(times[..n], t);
      assert SameAt(db, b, a) by { assert a !in addrs[..n]; }
      ReadsAgree(db, b, SetUnpin, a, now);
      assert AgreeAt(b, t1, a);
      UnpinKept(b, a, now, t1, now.access);
      hide Kept;
      BatchStep(db, b, change, addrs[..n], a, UnpinIn(b, b, a, now), t1, now.access);
      assert addrs[..n] + [a] == addrs;
    }
  }

  /** Unreserving keeps the invariant and removes nothing from the gc index. */
  lemma UnreserveInv(db: DB, id: BatchID, bin: nat, addrs: seq<Addr>, times: seq<Now>, t: int)
    requires Inv(db, t) && |times| == |addrs| && Distinct(addrs) && Ticking(times, t)
    ensures Inv(UnreserveBin(db, id, bin, addrs, times), EndTime(times, t))
    ensures forall k :: k in db.core.gc ==> k in UnreserveBin(db, id, bin, addrs, times).core.gc
  {
    hide AgreeAt, UnpinAll, SameAt;
    UnpinAllKept(db.core, addrs, times, t);
    var (b, change) := UnpinAll(db.core, addrs, times);
    SizeFits(db.gcSize, change, |b.gc|);
  }
}
