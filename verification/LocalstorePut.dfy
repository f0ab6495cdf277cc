/** mode_put.go: storing chunks, bin ids, and stamps that collide with an earlier chunk's. */
module LocalstorePut {
  import opened Localstore

  datatype PutMode = PutRequest | PutRequestPin | PutRequestCache | PutUpload | PutUploadPin | PutSync

  /** Batch so far, the call's map of bin counters, whether the chunk was there before, change of gcSize. */
  datatype PutStep = PutOk(b: DB, ids: map<nat, nat>, existed: bool, change: int) | PutErr

  function Counter(ids: map<nat, nat>, bin: nat): nat { if bin in ids then ids[bin] else 0 }

  /** incBinID: the call's map is filled from the database on first use. */
  function NextBinID(db: DB, ids: map<nat, nat>, bin: nat): nat {
    (if bin in ids then ids[bin] else Counter(db.binIDs, bin)) + 1
  }

  /** putUpload on the core indexes: a push entry and no access time. */
  function NewUpload(b: Core, a: Addr, d: Data): Core {
    PushPut(DataPut(b, a, d), PushKey(d.storeTs, a))
  }

  /** putRequest and putSync on the core indexes: an access time, then reserve or cache. */
  function NewCached(db: Core, b: Core, a: Addr, d: Data, access: int, within: bool, forcePin: bool,
                     forceCache: bool): Step {
    PreserveOrCacheIn(db, AccessPut(DataPut(b, a, d), a, access), a, access, d, within, forcePin, forceCache)
  }

  /** What a put does to the core indexes for a chunk that is not stored yet. */
  function NewIn(db: Core, b: Core, a: Addr, d: Data, access: int, within: bool, mode: PutMode): Step {
    match mode
    case PutUpload => Ok(NewUpload(b, a, d), 0)
    case PutUploadPin => PinIn(db, NewUpload(b, a, d), a)
    case _ => NewCached(db, b, a, d, access, within, mode == PutRequestPin, mode == PutRequestCache)
  }

  /** What the stamp says about an earlier chunk with the same batch index. */
  datatype Collision = Free | Overwrite | Older | Replaced(b: DB, change: int) | Broken

  function CollisionIn(db: DB, b: DB, item: Item): Collision {
    var k := StampKey(item.batch, item.index);
    if k !in db.postageIndex then Free
    else if item.immutable then Overwrite
    else if item.stampTs <= db.postageIndex[k].stampTs then Older
    else
      var a := db.postageIndex[k].addr;
      var s := RemoveIn(db.core, b.core, a);
      if s.Err? then Broken
      else Replaced(b.(core := s.b, pull := b.pull - PullKeysOf(db, [a]),
                       postageChunks := b.postageChunks - ChunkKeysOf(db, [a])), s.change)
  }

  /** putRequest, putUpload and putSync, with the batch left after any stamp collision. */
  function StoreIn(db: DB, b: DB, ids: map<nat, nat>, item: Item, mode: PutMode, change: int, now: Now): PutStep {
    var a, bin := item.addr, db.po(item.addr);
    var id := NextBinID(db, ids, bin);
    var d := Data(now.store, id, item.batch, item.index, item.stampTs);
    var s := NewIn(db.core, b.core, a, d, now.access, bin >= item.radius, mode);
    if s.Err? then PutErr
    else
      var b1 := b.(core := s.b,
                   pull := if mode == PutRequestCache then b.pull else b.pull[PullKey(bin, id) := a],
                   postageChunks := b.postageChunks + {ChunkKey(item.batch, bin, a)},
                   postageIndex := b.postageIndex[StampKey(item.batch, item.index) := StampValue(a, item.stampTs)]);
      // putUpload and putSync drop the change reported for the chunk they replaced; putRequest keeps it
      var kept := if mode == PutSync || mode == PutUpload || mode == PutUploadPin then 0 else change;
      PutOk(b1, ids[bin := id], false, kept + s.change)
  }

  /** Chunk already there, or refused in favour of a later one: only PutUploadPin does anything, it pins. */
  function NotStoredIn(db: DB, b: DB, ids: map<nat, nat>, item: Item, mode: PutMode, existed: bool): PutStep {
    if mode != PutUploadPin then PutOk(b, ids, existed, 0)
    else
      var s := PinIn(db.core, b.core, item.addr);
      if s.Err? then PutErr else PutOk(b.(core := s.b), ids, existed, s.change)
  }

  function PutIn(db: DB, b: DB, ids: map<nat, nat>, item: Item, mode: PutMode, now: Now): PutStep {
    if item.addr in db.core.data then NotStoredIn(db, b, ids, item, mode, true)
    else
      match CollisionIn(db, b, item)
      case Free => StoreIn(db, b, ids, item, mode, 0, now)
      case Overwrite => PutErr
      case Broken => PutErr
      case Older => NotStoredIn(db, b, ids, item, mode, false)
      case Replaced(b1, change) => StoreIn(db, b1, ids, item, mode, change, now)
  }

  /** containsChunk */
  predicate Contains(items: seq<Item>, a: Addr) { exists i :: 0 <= i < |items| && items[i].addr == a }

  /** The loop of put: a repeated address only counts the first time. */
  function PutAll(db: DB, mode: PutMode, items: seq<Item>, times: seq<Now>): PutStep
    requires |times| == |items|
  {
    if items == [] then PutOk(db, map[], false, 0)
    else
      var n := |items| - 1;
      var r := PutAll(db, mode, items[..n], times[..n]);
      if r.PutErr? || Contains(items[..n], items[n].addr) then r
      else
        var s := PutIn(db, r.b, r.ids, items[n], mode, times[n]);
        if s.PutErr? then s else s.(change := r.change + s.change)
  }

  /** put: all or nothing; bin counters and gcSize go into the same batch. */
  function Put(db: DB, mode: PutMode, items: seq<Item>, times: seq<Now>): DB
    requires |times| == |items|
  {
    var r := PutAll(db, mode, items, times);
    if r.PutErr? then db
    else r.b.(binIDs := db.binIDs + r.ids, gcSize := IncGCSize(db.gcSize, r.change))
  }
}
