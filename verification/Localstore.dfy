/**
The chunk store of pkg/localstore: indexes over one LevelDB, updated by batches.  Functions ending in `In`
read the database `db` and write the pending batch `b`; `b` is kept as the contents it will produce.
reserveSize, tags and subscriptions are not part of the model.
*/
module Localstore {
  import opened Common

  // Only equality of addresses, batch ids and stamp indexes matters here, so they are numbers.
  type Addr = nat
  type BatchID = nat
  type StampIndex = nat
  const NO_INDEX: StampIndex := 0

  /** retrievalDataIndex value, without the chunk bytes. */
  datatype Data = Data(storeTs: int, binID: nat, batch: BatchID, index: StampIndex, stampTs: nat)

  /** gcIndex key: access time first, so iteration is oldest first. */
  datatype GcKey = GcKey(access: int, binID: nat, addr: Addr)
  datatype GcValue = GcValue(batch: BatchID, index: StampIndex)
  datatype PullKey = PullKey(bin: nat, binID: nat)
  datatype PushKey = PushKey(storeTs: int, addr: Addr)
  datatype StampKey = StampKey(batch: BatchID, index: StampIndex)
  datatype StampValue = StampValue(addr: Addr, stampTs: nat)
  datatype ChunkKey = ChunkKey(batch: BatchID, bin: nat, addr: Addr)

  /** The indexes that decide whether a chunk is stored, synced, pinned or collectable. */
  datatype Core = Core(
    data: map<Addr, Data>,                 // retrievalDataIndex
    access: map<Addr, int>,                // retrievalAccessIndex
    push: set<PushKey>,                    // pushIndex
    gc: map<GcKey, GcValue>,               // gcIndex
    pin: map<Addr, nat>)                   // pinIndex

  datatype DB = DB(
    po: Addr -> nat,                       // proximity bin of an address to the node, fixed
    core: Core,
    pull: map<PullKey, Addr>,              // pullIndex
    postageChunks: set<ChunkKey>,
    postageIndex: map<StampKey, StampValue>,
    postageRadius: map<BatchID, nat>,
    binIDs: map<nat, nat>,
    gcSize: nat)

  /** Outcome of one step: the batch so far and the change of gcSize; an error aborts the call or is skipped. */
  datatype Step = Ok(b: Core, change: int) | Err(b: Core)

  /** An incoming chunk with its stamp and the radius of its batch. */
  datatype Item = Item(addr: Addr, batch: BatchID, index: StampIndex, stampTs: nat, radius: nat, immutable: bool)

  /** The clock as read while one chunk is processed. */
  datatype Now = Now(store: int, access: int)

  // ---------------------------------------------------------------- single writes to a batch

  function PinPut(b: Core, a: Addr, n: nat): Core { b.(pin := b.pin[a := n]) }
  function PinDelete(b: Core, a: Addr): Core { b.(pin := b.pin - {a}) }
  function GcPut(b: Core, k: GcKey, v: GcValue): Core { b.(gc := b.gc[k := v]) }
  function GcDelete(b: Core, k: GcKey): Core { b.(gc := b.gc - {k}) }
  function AccessPut(b: Core, a: Addr, t: int): Core { b.(access := b.access[a := t]) }
  function AccessDelete(b: Core, a: Addr): Core { b.(access := b.access - {a}) }
  function PushPut(b: Core, k: PushKey): Core { b.(push := b.push + {k}) }
  function PushDelete(b: Core, k: PushKey): Core { b.(push := b.push - {k}) }
  function DataPut(b: Core, a: Addr, d: Data): Core { b.(data := b.data[a := d]) }
  function DataDelete(b: Core, a: Addr): Core { b.(data := b.data - {a}) }

  // ---------------------------------------------------------------- mode_set.go

  /** gcIndex key of a stored chunk, from its access time and data entry. */
  function KeyOf(db: Core, a: Addr): GcKey
    requires a in db.data
  {
    GcKey(if a in db.access then db.access[a] else 0, db.data[a].binID, a)
  }

  /** setPin */
  function PinIn(db: Core, b: Core, a: Addr): Step {
    if a in db.pin then Ok(PinPut(b, a, db.pin[a] + 1), 0)
    else if a !in db.access then Ok(PinPut(b, a, 1), 0)
    else if a !in db.data then Err(b)
    else Ok(PinPut(GcDelete(b, KeyOf(db, a)), a, 1), -1)
  }

  /** The cache branch of preserveOrCache: collectable unless pinned or already so. */
  function CacheIn(db: Core, b: Core, a: Addr, access: int, d: Data): Step {
    var k := GcKey(access, d.binID, a);
    if a in db.pin || k in db.gc then Ok(b, 0) else Ok(GcPut(b, k, GcValue(d.batch, d.index)), 1)
  }

  /** preserveOrCache: pin into the reserve, or cache. */
  function PreserveOrCacheIn(db: Core, b: Core, a: Addr, access: int, d: Data, within: bool, forcePin: bool,
                             forceCache: bool): Step {
    if !forceCache && (within || forcePin) then PinIn(db, b, a) else CacheIn(db, b, a, access, d)
  }

  /** setSync; the item it builds carries radius 0, so it always counts as within the radius. */
  function SyncIn(db: Core, b: Core, a: Addr, now: Now): Step {
    if a !in db.data then Ok(PushDelete(b, PushKey(0, a)), 0)
    else
      var d := db.data[a];
      var b1 := PushDelete(b, PushKey(d.storeTs, a));
      if a in db.access then PreserveOrCacheIn(db, b1, a, db.access[a], d, true, false, false)
      else PreserveOrCacheIn(db, AccessPut(b1, a, now.access), a, now.access, d, true, false, false)
  }

  /** setRemove, called with the address only and with the gc check. */
  function RemoveIn(db: Core, b: Core, a: Addr): Step {
    if a !in db.data then Err(b)
    else
      var b1 := AccessDelete(DataDelete(b, a), a);
      if KeyOf(db, a) in db.gc then Ok(GcDelete(b1, KeyOf(db, a)), -1) else Ok(PinDelete(b1, a), 0)
  }

  /** setUnpin; the stamp index is not carried over into the gc entry. */
  function UnpinIn(db: Core, b: Core, a: Addr, now: Now): Step {
    if a !in db.pin then Err(b)
    else if db.pin[a] > 1 then Ok(PinPut(b, a, db.pin[a] - 1), 0)
    else if a !in db.data then Err(PinDelete(b, a))
    else if PushKey(db.data[a].storeTs, a) in db.push then Ok(PinDelete(b, a), 0)
    else Ok(RecacheIn(db, PinDelete(b, a), a, now), 1)
  }

  /** The end of setUnpin: a chunk that is no longer pinned becomes collectable, with an access time if it had none. */
  function RecacheIn(db: Core, b: Core, a: Addr, now: Now): Core
    requires a in db.data
  {
    var v := GcValue(db.data[a].batch, NO_INDEX);
    if a in db.access then GcPut(b, KeyOf(db, a), v)
    else GcPut(AccessPut(b, a, now.access), GcKey(now.access, db.data[a].binID, a), v)
  }

  datatype SetMode = SetSync | SetRemove | SetPin | SetUnpin

  function SetIn(db: Core, b: Core, mode: SetMode, a: Addr, now: Now): Step {
    match mode
    case SetSync => SyncIn(db, b, a, now)
    case SetRemove => RemoveIn(db, b, a)
    case SetPin => PinIn(db, b, a)
    case SetUnpin => UnpinIn(db, b, a, now)
  }

  /** The loop of set over its addresses. */
  function SetAll(db: Core, mode: SetMode, addrs: seq<Addr>, times: seq<Now>): Step
    requires |times| == |addrs|
  {
    if addrs == [] then Ok(db, 0)
    else
      var n := |addrs| - 1;
      var r := SetAll(db, mode, addrs[..n], times[..n]);
      if r.Err? then r
      else
        var s := SetIn(db, r.b, mode, addrs[n], times[n]);
        if s.Err? then s else Ok(s.b, r.change + s.change)
  }

  /** incGCSizeInBatch: refuses to take the counter below zero. */
  function IncGCSize(gcSize: nat, change: int): nat {
    if change < 0 && -change > gcSize then gcSize else gcSize + change
  }

  /** Pull and postage entries that setRemove deletes along with a chunk. */
  function PullKeysOf(db: DB, addrs: seq<Addr>): set<PullKey> {
    set a | a in addrs && a in db.core.data :: PullKey(db.po(a), db.core.data[a].binID)
  }

  function ChunkKeysOf(db: DB, addrs: seq<Addr>): set<ChunkKey> {
    set a | a in addrs && a in db.core.data :: ChunkKey(db.core.data[a].batch, db.po(a), a)
  }

  /** set: all or nothing. */
  function Set(db: DB, mode: SetMode, addrs: seq<Addr>, times: seq<Now>): DB
    requires |times| == |addrs|
  {
    var r := SetAll(db.core, mode, addrs, times);
    if r.Err? then db
    else if mode == SetRemove then
      db.(core := r.b, gcSize := IncGCSize(db.gcSize, r.change),
          pull := db.pull - PullKeysOf(db, addrs), postageChunks := db.postageChunks - ChunkKeysOf(db, addrs))
    else db.(core := r.b, gcSize := IncGCSize(db.gcSize, r.change))
  }

  // ---------------------------------------------------------------- mode_get.go

  /** updateGC for an item read earlier, whose BinID and stamp may be stale. */
  function UpdateGC(db: Core, a: Addr, binID: nat, v: GcValue, now: int): Core {
    if a !in db.access || db.access[a] == 0 then db
    else
      var k := GcKey(db.access[a], binID, a);
      var b := GcDelete(db, k);
      AccessPut(if k in db.gc then GcPut(b, GcKey(now, binID, a), v) else b, a, now)
  }

  // ---------------------------------------------------------------- reserve.go

  /** The unpin callback of UnreserveBatch over the chunks of one bin: chunks that cannot be unpinned are skipped. */
  function UnpinAll(db: Core, addrs: seq<Addr>, times: seq<Now>): (Core, int)
    requires |times| == |addrs|
  {
    if addrs == [] then (db, 0)
    else
      var n := |addrs| - 1;
      var (b, change) := UnpinAll(db, addrs[..n], times[..n]);
      var s := UnpinIn(db, b, addrs[n], times[n]);
      (s.b, if s.Ok? then change + s.change else change)
  }

  /** One round of UnreserveBatch, written as one batch. */
  function UnreserveBin(db: DB, id: BatchID, bin: nat, addrs: seq<Addr>, times: seq<Now>): DB
    requires |times| == |addrs|
  {
    var (b, change) := UnpinAll(db.core, addrs, times);
    db.(core := b, gcSize := IncGCSize(db.gcSize, change),
        postageRadius := if bin == MAX_PO then db.postageRadius - {id} else db.postageRadius[id := bin])
  }

  /** How many of the chunks the callback unpins without an error. */
  function Evicts(db: Core, addrs: seq<Addr>): nat {
    if addrs == [] then 0
    else
      var n := |addrs| - 1;
      Evicts(db, addrs[..n]) + if UnpinIn(db, db, addrs[n], Now(0, 0)).Ok? then 1 else 0
  }

  /** The rounds from bin `from` on, one for each scan of the chunk entries, and how many chunks they unpinned. */
  function UnreserveBins(db: DB, id: BatchID, from: nat, scans: seq<seq<Addr>>, times: seq<seq<Now>>): (DB, nat)
    requires |times| == |scans| && forall i :: 0 <= i < |scans| ==> |times[i]| == |scans[i]|
  {
    if scans == [] then (db, 0)
    else
      var n := |scans| - 1;
      var (d, evicted) := UnreserveBins(db, id, from, scans[..n], times[..n]);
      (UnreserveBin(d, id, from + n, scans[n], times[n]), evicted + Evicts(d.core, scans[n]))
  }

  /** Where UnreserveBatch starts: at the radius it recorded, if any. */
  function OldRadius(db: DB, id: BatchID, radius: nat): nat {
    if id in db.postageRadius then db.postageRadius[id] else radius
  }

  /** UnreserveBatch: the bins below the new radius, then the radius itself. */
  function Unreserve(db: DB, id: BatchID, radius: nat, scans: seq<seq<Addr>>, times: seq<seq<Now>>): (DB, nat)
    requires |times| == |scans| && forall i :: 0 <= i < |scans| ==> |times[i]| == |scans[i]|
  {
    var (d, evicted) := UnreserveBins(db, id, OldRadius(db, id, radius), scans, times);
    (if radius != MAX_PO + 1 then d.(postageRadius := d.postageRadius[id := radius]) else d, evicted)
  }
}
