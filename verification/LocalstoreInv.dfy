/** Agreement of the indexes about one address, and what each single-address step does to it. */
module LocalstoreInv {
  import opened Localstore

  // ---------------------------------------------------------------- agreement

  /** A collectable chunk is stored, not pinned, and its entry carries its current access time and BinID. */
  predicate GcEntryCurrent(c: Core, k: GcKey) {
    && k.addr in c.data && c.data[k.addr].binID == k.binID
    && k.addr in c.access && c.access[k.addr] == k.access
    && k.addr !in c.pin
  }

  /** Everything the indexes say about address a fits together; t bounds the timestamps. */
  ghost predicate AgreeAt(c: Core, t: int, a: Addr) {
    && (forall k: GcKey :: k in c.gc && k.addr == a ==> GcEntryCurrent(c, k))
    // a chunk with an access time is stored, and collectable unless pinned
    && (a in c.access ==> a in c.data && 0 < c.access[a] <= t)
    && (a in c.access && a !in c.pin ==> GcKey(c.access[a], c.data[a].binID, a) in c.gc)
    // a chunk still waiting to be push-synced has no access time
    && (a in c.data && PushKey(c.data[a].storeTs, a) in c.push ==> a !in c.access)
    && (a in c.data ==> 0 < c.data[a].storeTs <= t)
    && (forall k: PushKey :: k in c.push && k.addr == a ==> k.storeTs <= t)
  }

  /** The two contents agree on everything kept under address x. */
  ghost predicate SameAt(c: Core, d: Core, x: Addr) {
    && (x in d.data <==> x in c.data) && (x in c.data ==> d.data[x] == c.data[x])
    && (x in d.access <==> x in c.access) && (x in c.access ==> d.access[x] == c.access[x])
    && (x in d.pin <==> x in c.pin) && (x in c.pin ==> d.pin[x] == c.pin[x])
    && (forall k: GcKey :: k.addr == x ==> (k in d.gc <==> k in c.gc))
    && (forall k: PushKey :: k.addr == x ==> (k in d.push <==> k in c.push))
  }

  lemma SameAgrees(c: Core, d: Core, t: int, x: Addr)
    requires SameAt(c, d, x) && AgreeAt(c, t, x)
    ensures AgreeAt(d, t, x)
  {
    forall k: GcKey | k in d.gc && k.addr == x
      ensures GcEntryCurrent(d, k)
    {
      assert k in c.gc;
    }
  }

  /** Time passing does no harm. */
  lemma LaterAgrees(c: Core, t: int, t': int, a: Addr)
    requires AgreeAt(c, t, a) && t <= t'
    ensures AgreeAt(c, t', a)
  {}

  /** Nothing changes except under address a. */
  ghost predicate OnlyAt(c: Core, d: Core, a: Addr) {
    forall x :: x != a ==> SameAt(c, d, x)
  }

  lemma OnlyAtSelf(c: Core, a: Addr)
    ensures OnlyAt(c, c, a)
  {}

  lemma OnlyAtTrans(c: Core, d: Core, e: Core, a: Addr)
    requires OnlyAt(c, d, a) && OnlyAt(d, e, a)
    ensures OnlyAt(c, e, a)
  {
    forall x | x != a ensures SameAt(c, e, x) { assert SameAt(c, d, x) && SameAt(d, e, x); }
  }

  // ---------------------------------------------------------------- single writes

  lemma PinWrites(c: Core, a: Addr, n: nat)
    ensures OnlyAt(c, PinPut(c, a, n), a) && OnlyAt(c, PinDelete(c, a), a)
  {}

  lemma GcWrites(c: Core, k: GcKey, v: GcValue)
    ensures OnlyAt(c, GcPut(c, k, v), k.addr) && OnlyAt(c, GcDelete(c, k), k.addr)
  {}

  lemma AccessWrites(c: Core, a: Addr, t: int)
    ensures OnlyAt(c, AccessPut(c, a, t), a) && OnlyAt(c, AccessDelete(c, a), a)
  {}

  lemma PushWrites(c: Core, k: PushKey)
    ensures OnlyAt(c, PushPut(c, k), k.addr) && OnlyAt(c, PushDelete(c, k), k.addr)
  {}

  lemma DataWrites(c: Core, a: Addr, d: Data)
    ensures OnlyAt(c, DataPut(c, a, d), a) && OnlyAt(c, DataDelete(c, a), a)
  {}

  lemma CardRemove<K, V>(m: map<K, V>, k: K)
    ensures |m - {k}| == if k in m then |m| - 1 else |m|
  {
    if k in m { assert (m - {k}).Keys == m.Keys - {k}; } else { assert m - {k} == m; }
  }

  lemma CardAdd<K, V>(m: map<K, V>, k: K, v: V)
    ensures |m[k := v]| == if k in m then |m| else |m| + 1
  {
    assert m[k := v].Keys == m.Keys + {k};
  }

  // ---------------------------------------------------------------- steps

  /** Agreement at a, the gc count moved by the reported change, everything else untouched. */
  ghost predicate Kept(c: Core, s: Step, a: Addr, t: int) {
    && OnlyAt(c, s.b, a)
    && AgreeAt(s.b, t, a)
    && |s.b.gc| == |c.gc| + (if s.Ok? then s.change else 0)
  }

  lemma PinAgrees(c: Core, a: Addr, t: int)
    requires AgreeAt(c, t, a)
    ensures AgreeAt(PinIn(c, c, a).b, t, a)
  {}

  lemma PinCounts(c: Core, a: Addr, t: int)
    requires AgreeAt(c, t, a)
    ensures PinIn(c, c, a).Ok? && a in PinIn(c, c, a).b.pin
    ensures |PinIn(c, c, a).b.gc| == |c.gc| + PinIn(c, c, a).change
  {
    if a in c.data { CardRemove(c.gc, KeyOf(c, a)); }
  }

  /** setPin into a batch already written to for this address. */
  lemma PinOnlyAt(db: Core, c: Core, b: Core, a: Addr)
    requires OnlyAt(c, b, a)
    ensures OnlyAt(c, PinIn(db, b, a).b, a)
  {
    hide OnlyAt, PinPut, GcDelete;
    if a in db.pin {
      PinWrites(b, a, db.pin[a] + 1);
      OnlyAtTrans(c, b, PinPut(b, a, db.pin[a] + 1), a);
    } else if a !in db.access {
      PinWrites(b, a, 1);
      OnlyAtTrans(c, b, PinPut(b, a, 1), a);
    } else if a in db.data {
      var b1 := GcDelete(b, KeyOf(db, a));
      GcWrites(b, KeyOf(db, a), GcValue(0, 0));
      OnlyAtTrans(c, b, b1, a);
      PinWrites(b1, a, 1);
      OnlyAtTrans(c, b1, PinPut(b1, a, 1), a);
    }
  }

  /** setPin; thanks to the agreement its unconditional -1 is right. */
  lemma PinKept(c: Core, a: Addr, t: int)
    requires AgreeAt(c, t, a)
    ensures Kept(c, PinIn(c, c, a), a, t)
    ensures PinIn(c, c, a).Ok? && a in PinIn(c, c, a).b.pin
  {
    hide OnlyAt, PinIn, AgreeAt;
    OnlyAtSelf(c, a);
    PinOnlyAt(c, c, c, a);
    PinAgrees(c, a, t);
    PinCounts(c, a, t);
  }

  lemma RemoveAgrees(c: Core, a: Addr, t: int)
    requires AgreeAt(c, t, a)
    ensures AgreeAt(RemoveIn(c, c, a).b, t, a)
  {}

  lemma RemoveCounts(c: Core, a: Addr, t: int)
    requires AgreeAt(c, t, a)
    ensures |RemoveIn(c, c, a).b.gc| == |c.gc| + (if RemoveIn(c, c, a).Ok? then RemoveIn(c, c, a).change else 0)
  {
    if a in c.data { CardRemove(c.gc, KeyOf(c, a)); }
  }

  lemma RemoveOnlyAt(db: Core, c: Core, b: Core, a: Addr)
    requires OnlyAt(c, b, a)
    ensures OnlyAt(c, RemoveIn(db, b, a).b, a)
  {
    hide OnlyAt, DataDelete, AccessDelete, GcDelete, PinDelete;
    if a in db.data {
      var b1 := DataDelete(b, a);
      var b2 := AccessDelete(b1, a);
      DataWrites(b, a, db.data[a]);
      OnlyAtTrans(c, b, b1, a);
      AccessWrites(b1, a, 0);
      OnlyAtTrans(c, b1, b2, a);
      GcWrites(b2, KeyOf(db, a), GcValue(0, 0));
      PinWrites(b2, a, 0);
      OnlyAtTrans(c, b2, RemoveIn(db, b, a).b, a);
    }
  }

  lemma RemoveKept(c: Core, a: Addr, t: int)
    requires AgreeAt(c, t, a)
    ensures Kept(c, RemoveIn(c, c, a), a, t)
  {
    hide OnlyAt, RemoveIn, AgreeAt;
    OnlyAtSelf(c, a);
    RemoveOnlyAt(c, c, c, a);
    RemoveAgrees(c, a, t);
    RemoveCounts(c, a, t);
  }

  lemma SyncAgrees(c: Core, a: Addr, now: Now, t: int, t': int)
    requires AgreeAt(c, t, a) && 0 <= t < now.access <= t'
    ensures AgreeAt(SyncIn(c, c, a, now).b, t', a)
  {}

  lemma SyncCounts(c: Core, a: Addr, now: Now, t: int)
    requires AgreeAt(c, t, a)
    ensures SyncIn(c, c, a, now).Ok?
    ensures |SyncIn(c, c, a, now).b.gc| == |c.gc| + SyncIn(c, c, a, now).change
  {
    if a in c.data { CardRemove(c.gc, KeyOf(c, a)); }
  }

  lemma SyncOnlyAt(db: Core, c: Core, b: Core, a: Addr, now: Now)
    requires OnlyAt(c, b, a)
    ensures OnlyAt(c, SyncIn(db, b, a, now).b, a)
  {
    hide OnlyAt, PushDelete, AccessPut, PinIn;
    var k := PushKey(if a in db.data then db.data[a].storeTs else 0, a);
    var b1 := PushDelete(b, k);
    PushWrites(b, k);
    OnlyAtTrans(c, b, b1, a);
    if a in db.data {
      if a in db.access {
        PinOnlyAt(db, c, b1, a);
      } else {
        AccessWrites(b1, a, now.access);
        OnlyAtTrans(c, b1, AccessPut(b1, a, now.access), a);
        PinOnlyAt(db, c, AccessPut(b1, a, now.access), a);
      }
    }
  }

  lemma SyncKept(c: Core, a: Addr, now: Now, t: int, t': int)
    requires AgreeAt(c, t, a) && 0 <= t < now.access <= t'
    ensures Kept(c, SyncIn(c, c, a, now), a, t')
  {
    hide OnlyAt, SyncIn, AgreeAt;
    OnlyAtSelf(c, a);
    SyncOnlyAt(c, c, c, a, now);
    SyncAgrees(c, a, now, t, t');
    SyncCounts(c, a, now, t);
  }

  predicate Uncaches(c: Core, a: Addr) {
    a in c.pin && c.pin[a] <= 1 && a in c.data && PushKey(c.data[a].storeTs, a) !in c.push
  }

  lemma RecacheAgrees(c: Core, a: Addr, now: Now, t: int, t': int)
    requires AgreeAt(c, t, a) && 0 <= t < now.access <= t' && Uncaches(c, a)
    ensures AgreeAt(RecacheIn(c, PinDelete(c, a), a, now), t', a)
  {}

  lemma UnpinAgrees(c: Core, a: Addr, now: Now, t: int, t': int)
    requires AgreeAt(c, t, a) && 0 <= t < now.access <= t'
    ensures AgreeAt(UnpinIn(c, c, a, now).b, t', a)
  {
    if Uncaches(c, a) {
      RecacheAgrees(c, a, now, t, t');
    } else {
      hide RecacheIn;
    }
  }

  lemma RecacheCounts(c: Core, a: Addr, now: Now, t: int)
    requires AgreeAt(c, t, a) && Uncaches(c, a)
    ensures |RecacheIn(c, PinDelete(c, a), a, now).gc| == |c.gc| + 1
    ensures forall k :: k in c.gc ==> k in RecacheIn(c, PinDelete(c, a), a, now).gc
  {
    CardAdd(c.gc, GcKey(if a in c.access then c.access[a] else now.access, c.data[a].binID, a),
            GcValue(c.data[a].batch, NO_INDEX));
  }

  lemma UnpinCounts(c: Core, a: Addr, now: Now, t: int)
    requires AgreeAt(c, t, a)
    ensures |UnpinIn(c, c, a, now).b.gc|
            == |c.gc| + (if UnpinIn(c, c, a, now).Ok? then UnpinIn(c, c, a, now).change else 0)
    ensures forall k :: k in c.gc ==> k in UnpinIn(c, c, a, now).b.gc
  {
    hide RecacheIn;
    if Uncaches(c, a) { RecacheCounts(c, a, now, t); }
  }

  lemma UnpinOnlyAt(db: Core, c: Core, b: Core, a: Addr, now: Now)
    requires OnlyAt(c, b, a)
    ensures OnlyAt(c, UnpinIn(db, b, a, now).b, a)
  {
    hide OnlyAt, PinPut, PinDelete, RecacheIn;
    if a in db.pin {
      PinWrites(b, a, if db.pin[a] > 1 then db.pin[a] - 1 else 0);
      OnlyAtTrans(c, b, PinDelete(b, a), a);
      if db.pin[a] > 1 { OnlyAtTrans(c, b, PinPut(b, a, db.pin[a] - 1), a); }
    }
    if Uncaches(db, a) { RecacheOnlyAt(db, c, PinDelete(b, a), a, now); }
  }

  lemma RecacheOnlyAt(db: Core, c: Core, b: Core, a: Addr, now: Now)
    requires OnlyAt(c, b, a) && a in db.data
    ensures OnlyAt(c, RecacheIn(db, b, a, now), a)
  {
    hide OnlyAt, GcPut, AccessPut;
    var v := GcValue(db.data[a].batch, NO_INDEX);
    if a in db.access {
      GcWrites(b, KeyOf(db, a), v);
      OnlyAtTrans(c, b, GcPut(b, KeyOf(db, a), v), a);
    } else {
      var b2 := AccessPut(b, a, now.access);
      AccessWrites(b, a, now.access);
      OnlyAtTrans(c, b, b2, a);
      GcWrites(b2, GcKey(now.access, db.data[a].binID, a), v);
      OnlyAtTrans(c, b2, GcPut(b2, GcKey(now.access, db.data[a].binID, a), v), a);
    }
  }

  /** setUnpin only ever adds to the gc index. */
  lemma UnpinKept(c: Core, a: Addr, now: Now, t: int, t': int)
    requires AgreeAt(c, t, a) && 0 <= t < now.access <= t'
    ensures Kept(c, UnpinIn(c, c, a, now), a, t')
    ensures forall k :: k in c.gc ==> k in UnpinIn(c, c, a, now).b.gc
  {
    hide OnlyAt, UnpinIn, AgreeAt;
    OnlyAtSelf(c, a);
    UnpinOnlyAt(c, c, c, a, now);
    UnpinAgrees(c, a, now, t, t');
    UnpinCounts(c, a, now, t);
  }
}
