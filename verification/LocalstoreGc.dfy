/**
Garbage collection in two phases (pkg/localstore/gc.go).  Candidates are read without the lock; puts, sets,
access updates and unreserving go on in between and mark what they touch as dirty; the commit skips dirty
candidates.  The state machine below interleaves all of them at the granularity of batchMu.
*/
module LocalstoreGc {
  import opened Common
  import opened Localstore
  import opened LocalstorePut
  import opened LocalstoreInv
  import opened LocalstoreBatch
  import opened LocalstorePutInv
  import opened LocalstoreKeys
  import opened LocalstoreRepeat
  import opened LocalstoreReplace
  import opened LocalstoreMore

  /** gcRunning, dirtyAddresses, and the candidates of the run in progress. */
  datatype Store = Store(db: DB, gcRunning: bool, dirty: set<Addr>, candidates: seq<GcKey>)

  const GC_BATCH_SIZE: nat := 2000

  /** How many of the n entries seen by the iterator are selected. */
  function SelectCount(gcSize: nat, target: nat, n: nat): nat {
    if gcSize <= target then 0 else Min(n, Min(GC_BATCH_SIZE, gcSize - target))
  }

  /**
  The candidate loop over the gc index in key order: the oldest entries, no more than a batch, never so many that the
  counter would fall below the target, and not fewer than that unless the batch or the index is used up.
  */
  method SelectCandidates(keys: seq<GcKey>, gcSize: nat, target: nat) returns (candidates: seq<GcKey>)
    ensures candidates <= keys && |candidates| <= GC_BATCH_SIZE
    ensures gcSize <= target ==> candidates == []
    ensures gcSize > target ==> gcSize - |candidates| >= target
    ensures gcSize > target && |candidates| < GC_BATCH_SIZE && |candidates| < |keys| ==>
              gcSize - |candidates| == target
    ensures candidates == keys[..SelectCount(gcSize, target, |keys|)]
  {
    candidates := [];
    var collectedCount := 0;
    for i := 0 to |keys|
      invariant collectedCount == i == |candidates| && candidates == keys[..i]
      invariant i < GC_BATCH_SIZE && (i > 0 ==> i <= gcSize - target)
    {
      // uint64 arithmetic: the subtraction is only reached while collectedCount is below gcSize - target
      if gcSize <= target || gcSize - collectedCount <= target { return; }
      candidates := candidates + [keys[i]];
      collectedCount := collectedCount + 1;
      if collectedCount >= GC_BATCH_SIZE { return; }
    }
  }

  /** Deletion of one collected item from the core indexes. */
  function CollectIn(b: Core, k: GcKey): Core {
    GcDelete(AccessDelete(DataDelete(b, k.addr), k.addr), k)
  }

  function CollectAll(c: Core, keys: seq<GcKey>): Core {
    if keys == [] then c else CollectIn(CollectAll(c, keys[..|keys| - 1]), keys[|keys| - 1])
  }

  /** Candidates nobody has touched since gcRunning was set. */
  function Clean(candidates: seq<GcKey>, dirty: set<Addr>): seq<GcKey> {
    if candidates == [] then []
    else
      var n := |candidates| - 1;
      if candidates[n].addr in dirty then Clean(candidates[..n], dirty)
      else Clean(candidates[..n], dirty) + [candidates[n]]
  }

  /** Unsigned subtraction as the machine does it. */
  function MinusUint64(a: nat, b: nat): nat { if b <= a then a - b else (a - b) % 0x1_0000_0000_0000_0000 }

  /** The commit: collectedCount goes down by one for every dirty candidate. */
  function Commit(s: Store): Store {
    var keys := Clean(s.candidates, s.dirty);
    var values := set k | k in keys && k in s.db.core.gc :: (k, s.db.core.gc[k]);
    s.(candidates := [],
       db := s.db.(core := CollectAll(s.db.core, keys), gcSize := MinusUint64(s.db.gcSize, |keys|),
                   pull := s.db.pull - set k | k in keys :: PullKey(s.db.po(k.addr), k.binID),
                   postageChunks := s.db.postageChunks - set kv | kv in values ::
                     ChunkKey(kv.1.batch, s.db.po(kv.0.addr), kv.0.addr),
                   postageIndex := s.db.postageIndex - set kv | kv in values :: StampKey(kv.1.batch, kv.1.index)))
  }

  datatype Op =
    | OpPut(mode: PutMode, items: seq<Item>, times: seq<Now>)
    | OpSet(sets: SetMode, addrs: seq<Addr>, times: seq<Now>)
    | OpUpdateGC(a: Addr, binID: nat, v: GcValue, now: int)
    | OpUnreserve(id: BatchID, bin: nat, addrs: seq<Addr>, times: seq<Now>)
    | OpGcBegin
    | OpGcSelect(keys: seq<GcKey>, gcSize: nat, target: nat)
    | OpGcCommit
    | OpGcEnd

  /** One clock reading for each chunk of a call. */
  predicate Sized(op: Op) {
    match op
    case OpPut(_, items, times) => |times| == |items|
    case OpSet(_, addrs, times) => |times| == |addrs|
    case OpUnreserve(_, _, addrs, times) => |times| == |addrs|
    case _ => true
  }

  /**
  What holds of every step: the clock increases (t is its last reading), collection runs are begun, filled and
  ended in turn, and iterators read a snapshot, so that unreserving sees each chunk of a bin once and the selection
  sees the gc index in order; the counter the selection compares with was read on its own and may be stale.
  */
  ghost predicate Timed(s: Store, op: Op, t: int) {
    Sized(op) &&
    match op
    case OpPut(_, _, times) => Ticking(times, t)
    case OpSet(_, _, times) => Ticking(times, t)
    case OpUpdateGC(_, _, _, now) => t < now
    case OpUnreserve(_, _, addrs, times) => Ticking(times, t) && Distinct(addrs)
    case OpGcBegin => !s.gcRunning
    case OpGcSelect(keys, _, _) =>
      s.gcRunning && s.candidates == [] && InOrder(keys)
      && forall k :: k in keys <==> k in s.db.core.gc
    case OpGcCommit => s.gcRunning
    case OpGcEnd => s.gcRunning
  }

  /** A candidate not marked dirty is replaced: put marks the chunks it is given, not the ones they replace. */
  ghost predicate ReplacesCandidate(s: Store, items: seq<Item>) {
    exists k :: k in s.candidates && k.addr !in Mark(s, Addrs(items)) && k in KeySet(ReplacedKeys(s.db, items))
  }

  /** The steps that keep the store's invariant, told from the store and the call alone. */
  ghost predicate Safe(s: Store, op: Op) {
    match op
    case OpPut(mode, items, _) =>
      || PutShortcut(s, mode, items) || RefusedCall(s.db, items)
      || ((CountsRight(s.db, mode, items) || RightByLuck(s.db, mode, items)) && !ReplacesCandidate(s, items))
    case OpSet(mode, addrs, _) =>
      (exists i :: 0 <= i < |addrs| && Refused(s.db.core, mode, addrs[i])) || !MovesTwice(s.db.core, mode, addrs)
    case OpUpdateGC(a, binID, _, _) => Current(s.db.core, a, binID)
    case _ => true
  }

  /** Byte order of the gc index keys: access time, BinID, address. */
  predicate Before(j: GcKey, k: GcKey) {
    j.access < k.access || (j.access == k.access && (j.binID < k.binID || (j.binID == k.binID && j.addr < k.addr)))
  }

  predicate InOrder(keys: seq<GcKey>) {
    forall i, j :: 0 <= i < j < |keys| ==> Before(keys[i], keys[j])
  }

  function Mark(s: Store, addrs: seq<Addr>): set<Addr> {
    if s.gcRunning then s.dirty + set a | a in addrs else s.dirty
  }

  /** put returns early, without lock or marks, when its only chunk is already there. */
  predicate PutShortcut(s: Store, mode: PutMode, items: seq<Item>) {
    |items| == 1 && mode != PutRequestPin && mode != PutUploadPin && items[0].addr in s.db.core.data
  }

  /** Going on would have changed nothing. */
  lemma ShortcutIsPut(s: Store, mode: PutMode, items: seq<Item>, times: seq<Now>)
    requires PutShortcut(s, mode, items) && |times| == |items|
    ensures Put(s.db, mode, items, times) == s.db
  {
    var r := PutAll(s.db, mode, items[..0], times[..0]);
    assert r == PutOk(s.db, map[], false, 0) && First(items, 0);
    PutNext(s.db, mode, items, times);
    hide PutAll;
    assert PutAll(s.db, mode, items, times) == PutOk(s.db, map[], true, 0);
    assert s.db.binIDs + map[] == s.db.binIDs;
  }

  function Do(s: Store, op: Op): Store
    requires Sized(op)
  {
    match op
    case OpPut(mode, items, times) =>
      if PutShortcut(s, mode, items) then s else s.(db := Put(s.db, mode, items, times), dirty := Mark(s, Addrs(items)))
    case OpSet(mode, addrs, times) => s.(db := Set(s.db, mode, addrs, times), dirty := Mark(s, addrs))
    case OpUpdateGC(a, binID, v, now) =>
      s.(db := s.db.(core := UpdateGC(s.db.core, a, binID, v, now)), dirty := Mark(s, [a]))
    case OpUnreserve(id, bin, addrs, times) => s.(db := UnreserveBin(s.db, id, bin, addrs, times))
    case OpGcBegin => s.(gcRunning := true)
    case OpGcSelect(keys, gcSize, target) => s.(candidates := keys[..SelectCount(gcSize, target, |keys|)])
    case OpGcCommit => Commit(s)
    case OpGcEnd => s.(gcRunning := false, dirty := {}, candidates := [])
  }

  function Clock(op: Op, t: int): int {
    match op
    case OpPut(_, _, times) => EndTime(times, t)
    case OpSet(_, _, times) => EndTime(times, t)
    case OpUpdateGC(_, _, _, now) => now
    case OpUnreserve(_, _, _, times) => EndTime(times, t)
    case _ => t
  }

  /** Untouched candidates are still in the gc index under the key they were read with. */
  ghost predicate CandidatesHold(s: Store) {
    && InOrder(s.candidates)
    && forall k :: k in s.candidates && k.addr !in s.dirty ==> k in s.db.core.gc
  }

  ghost predicate StoreInv(s: Store, t: int) {
    Inv(s.db, t) && CandidatesHold(s) && (!s.gcRunning ==> s.dirty == {} && s.candidates == [])
  }

  // ---------------------------------------------------------------- the commit

  lemma {:induction false} CleanFacts(candidates: seq<GcKey>, dirty: set<Addr>)
    requires InOrder(candidates)
    ensures InOrder(Clean(candidates, dirty))
    ensures forall k :: k in Clean(candidates, dirty) <==> k in candidates && k.addr !in dirty
    decreases |candidates|
  {
    if candidates != [] {
      var n := |candidates| - 1;
      CleanFacts(candidates[..n], dirty);
      assert candidates == candidates[..n] + [candidates[n]];
      forall k | k in Clean(candidates[..n], dirty) ensures Before(k, candidates[n]) {
        assert k in candidates[..n];
      }
    }
  }

  lemma CollectOnlyAt(c: Core, k: GcKey)
    ensures OnlyAt(c, CollectIn(c, k), k.addr)
  {
    hide OnlyAt, DataDelete, AccessDelete, GcDelete;
    var b1 := DataDelete(c, k.addr);
    var b2 := AccessDelete(b1, k.addr);
    DataWrites(c, k.addr, Data(0, 0, 0, 0, 0));
    AccessWrites(b1, k.addr, 0);
    OnlyAtTrans(c, b1, b2, k.addr);
    GcWrites(b2, k, GcValue(0, 0));
    OnlyAtTrans(c, b2, CollectIn(c, k), k.addr);
  }

  lemma CollectKept(c: Core, k: GcKey, t: int)
    requires AgreeAt(c, t, k.addr) && k in c.gc
    ensures AgreeAt(CollectIn(c, k), t, k.addr) && |CollectIn(c, k).gc| == |c.gc| - 1
    ensures k.addr !in c.pin && CollectIn(c, k).pin == c.pin
  {
    CardRemove(c.gc, k);
  }

  lemma {:induction false} CollectAllGc(c: Core, keys: seq<GcKey>)
    ensures forall x :: x in CollectAll(c, keys).gc <==> x in c.gc && x !in keys
    ensures CollectAll(c, keys).pin == c.pin
    decreases |keys|
  {
    if keys != [] {
      var n := |keys| - 1;
      CollectAllGc(c, keys[..n]);
      assert keys == keys[..n] + [keys[n]];
    }
  }

  /** Collecting entries of the gc index keeps agreement and removes exactly that many. */
  lemma {:induction false} CollectAllKept(c: Core, keys: seq<GcKey>, t: int)
    requires Agree(c, t) && InOrder(keys) && forall k :: k in keys ==> k in c.gc
    ensures Agree(CollectAll(c, keys), t)
    ensures |CollectAll(c, keys).gc| == |c.gc| - |keys|
    decreases |keys|
  {
    hide AgreeAt, OnlyAt;
    if keys != [] {
      var n := |keys| - 1;
      var k := keys[n];
      CollectAllKept(c, keys[..n], t);
      CollectAllGc(c, keys[..n]);
      var b := CollectAll(c, keys[..n]);
      assert k !in keys[..n] by { assert forall i :: 0 <= i < n ==> Before(keys[i], k); }
      assert k in b.gc && AgreeAt(b, t, k.addr);
      hide InOrder, CollectIn;
      CollectKept(b, k, t);
      CollectOnlyAt(b, k);
      AgreeAfter(b, CollectIn(b, k), k.addr, t, t);
    }
  }

  lemma CardAtLeast(m: map<GcKey, GcValue>, keys: seq<GcKey>)
    requires InOrder(keys) && forall k :: k in keys ==> k in m
    ensures |keys| <= |m|
    decreases |keys|
  {
    if keys != [] {
      var n := |keys| - 1;
      assert forall k :: k in keys[..n] ==> k in keys && k in m - {keys[n]};
      CardAtLeast(m - {keys[n]}, keys[..n]);
      CardRemove(m, keys[n]);
    }
  }

  /**
  At commit time every untouched candidate is still collectable under its key; none of them is pinned; and
  the counter covers them, so the unsigned subtraction of collectedCount cannot underflow.
  */
  lemma CommitIsSafe(s: Store, t: int)
    requires StoreInv(s, t)
    ensures |Clean(s.candidates, s.dirty)| <= s.db.gcSize
    ensures forall k :: k in Clean(s.candidates, s.dirty) ==> k in s.db.core.gc && GcEntryCurrent(s.db.core, k)
    ensures StoreInv(Commit(s), t)
    ensures Commit(s).db.core.pin == s.db.core.pin
  {
    var keys := Clean(s.candidates, s.dirty);
    CleanFacts(s.candidates, s.dirty);
    CardAtLeast(s.db.core.gc, keys);
    forall k | k in keys
      ensures GcEntryCurrent(s.db.core, k)
    {
      assert AgreeAt(s.db.core, t, k.addr);
    }
    hide AgreeAt, Clean;
    CollectAllKept(s.db.core, keys, t);
    CollectAllGc(s.db.core, keys);
    hide CollectAll;
  }

  /** A commit leaves the invariant standing if and only if every untouched candidate is still in the gc index. */
  lemma CommitExact(s: Store, t: int)
    requires Inv(s.db, t) && InOrder(s.candidates) && |s.candidates| <= GC_BATCH_SIZE
    ensures Inv(Commit(s).db, t) <==> CandidatesHold(s)
  {
    var c, keys := s.db.core, Clean(s.candidates, s.dirty);
    CleanFacts(s.candidates, s.dirty);
    CleanShort(s.candidates, s.dirty);
    CollectedCount(c, keys);
    hide AgreeAt, Clean, CollectAll, InOrder;
    if CandidatesHold(s) {
      CardAtLeast(c.gc, keys);
      CollectAllKept(c, keys, t);
    } else {
      var k :| k in s.candidates && k.addr !in s.dirty && k !in c.gc;
      SomeMissing(c.gc.Keys, keys, k);
      NotByWrapping(s.db.gcSize, |keys|, |Hits(c.gc.Keys, keys)|);
    }
  }

  /** The keys of a list that are in the index. */
  ghost function Hits(gc: set<GcKey>, keys: seq<GcKey>): set<GcKey> { set k | k in keys && k in gc }

  lemma {:induction false} CleanShort(candidates: seq<GcKey>, dirty: set<Addr>)
    ensures |Clean(candidates, dirty)| <= |candidates|
    decreases |candidates|
  {
    if candidates != [] { CleanShort(candidates[..|candidates| - 1], dirty); }
  }

  lemma CollectedCount(c: Core, keys: seq<GcKey>)
    ensures |CollectAll(c, keys).gc| == |c.gc| - |Hits(c.gc.Keys, keys)|
  {
    CollectAllGc(c, keys);
    var left := CollectAll(c, keys).gc;
    hide CollectAll;
    assert left.Keys == c.gc.Keys - Hits(c.gc.Keys, keys);
  }

  lemma SomeMissing(gc: set<GcKey>, keys: seq<GcKey>, k: GcKey)
    requires k in keys && k !in gc
    ensures |Hits(gc, keys)| < |keys|
  {
    var all := set x | x in keys;
    assert Hits(gc, keys) <= all - {k};
    Fewer(Hits(gc, keys), all - {k});
    ListCard(keys);
  }

  lemma Fewer(small: set<GcKey>, large: set<GcKey>)
    requires small <= large
    ensures |small| <= |large|
  {
    assert large == small + (large - small);
  }

  lemma {:induction false} ListCard(keys: seq<GcKey>)
    ensures |set x | x in keys| <= |keys|
  {
    if keys != [] {
      var n := |keys| - 1;
      ListCard(keys[..n]);
      assert (set x | x in keys) == (set x | x in keys[..n]) + {keys[n]};
    }
  }

  /**
  A selection with the current counter and its commit take the counter down to the target, or by a whole batch, and
  up again by one for every candidate touched in between; never below the target.
  */
  lemma CollectsDownToTarget(s: Store, keys: seq<GcKey>, target: nat, dirty: set<Addr>, t: int)
    requires StoreInv(s, t) && Timed(s, OpGcSelect(keys, s.db.gcSize, target), t)
    ensures var selected := Do(s, OpGcSelect(keys, s.db.gcSize, target)).(dirty := dirty);
      var touched := |selected.candidates| - |Clean(selected.candidates, dirty)|;
      var after := Commit(selected).db.gcSize;
      && touched >= 0
      && (s.db.gcSize <= target ==> after == s.db.gcSize)
      && (s.db.gcSize > target ==> after == Max(target, s.db.gcSize - GC_BATCH_SIZE) + touched >= target)
  {
    hide AgreeAt, Clean, CollectAll;
    IndexListed(s.db.core.gc, keys);
    CleanShort(Do(s, OpGcSelect(keys, s.db.gcSize, target)).candidates, dirty);
  }

  /** An ordered list of exactly the keys of an index has as many entries. */
  lemma IndexListed(m: map<GcKey, GcValue>, keys: seq<GcKey>)
    requires InOrder(keys) && forall k :: k in keys <==> k in m
    ensures |keys| == |m|
  {
    CardAtLeast(m, keys);
    ListCard(keys);
    assert (set x | x in keys) == m.Keys;
  }

  /** Even where the unsigned counter wraps, it does not come out right. */
  lemma NotByWrapping(size: nat, taken: nat, hits: nat)
    requires hits < taken <= GC_BATCH_SIZE && hits <= size
    ensures MinusUint64(size, taken) != size - hits
  {
    assert size < taken ==> (size - taken) % 0x1_0000_0000_0000_0000 == size - taken + 0x1_0000_0000_0000_0000;
  }

  // ---------------------------------------------------------------- every step

  lemma SameInGc(c: Core, d: Core, k: GcKey)
    requires SameAt(c, d, k.addr) && k in c.gc
    ensures k in d.gc
  {}

  /** Candidates survive any call that leaves untouched addresses alone and marks the others. */
  lemma CandidatesSurvive(s: Store, s': Store, addrs: seq<Addr>)
    requires CandidatesHold(s) && (!s.gcRunning ==> s.candidates == [])
    requires s'.candidates == s.candidates && s'.dirty == Mark(s, addrs)
    requires forall x :: x !in addrs ==> SameAt(s.db.core, s'.db.core, x)
    ensures CandidatesHold(s')
  {
    hide SameAt;
    forall k | k in s'.candidates && k.addr !in s'.dirty
      ensures k in s'.db.core.gc
    {
      assert k.addr !in addrs && k.addr !in s.dirty;
      SameInGc(s.db.core, s'.db.core, k);
    }
  }

  lemma SetStep(s: Store, mode: SetMode, addrs: seq<Addr>, times: seq<Now>, t: int)
    requires StoreInv(s, t) && |times| == |addrs| && Ticking(times, t)
    ensures StoreInv(Do(s, OpSet(mode, addrs, times)), EndTime(times, t)) <==> Safe(s, OpSet(mode, addrs, times))
  {
    hide Inv, SameAt, SetAll, Moves, Refused;
    SetExact(s.db, mode, addrs, times, t);
    var s' := Do(s, OpSet(mode, addrs, times));
    if exists i :: 0 <= i < |addrs| && Refused(s.db.core, mode, addrs[i]) {
      SetRefused(s.db, mode, addrs, times, t);
      CandidatesSame(s, s');
    } else if !MovesTwice(s.db.core, mode, addrs) {
      forall x | x !in addrs ensures SameAt(s.db.core, s'.db.core, x) {
        SetElsewhere(s.db, mode, addrs, times, x);
      }
      hide Set;
      CandidatesSurvive(s, s', addrs);
    }
  }

  lemma SetRefused(db: DB, mode: SetMode, addrs: seq<Addr>, times: seq<Now>, t: int)
    requires Inv(db, t) && |times| == |addrs| && exists i :: 0 <= i < |addrs| && Refused(db.core, mode, addrs[i])
    ensures Set(db, mode, addrs, times) == db
  {
    hide AgreeAt, SetAll, Refused;
    CallKeys(db.core, mode, addrs, times, t);
  }

  lemma CandidatesSame(s: Store, s': Store)
    requires CandidatesHold(s) && s'.candidates == s.candidates && s.dirty <= s'.dirty && s'.db.core.gc == s.db.core.gc
    ensures CandidatesHold(s')
  {}

  /** Which candidates a put leaves in place. */
  lemma PutCandidates(s: Store, mode: PutMode, items: seq<Item>, times: seq<Now>, t: int)
    requires StoreInv(s, t) && |times| == |items| && !PutShortcut(s, mode, items)
             && PutAll(s.db, mode, items, times).PutOk?
    ensures CandidatesHold(Do(s, OpPut(mode, items, times))) <==> !ReplacesCandidate(s, items)
  {
    hide AgreeAt, PutAll, PutShortcut, Dropped, CachedCount, ReportedChange;
    var s' := Do(s, OpPut(mode, items, times));
    CallGc(s.db, mode, items, times, t);
    var gone := Dropped(s.db, mode, items);
    assert forall k :: k in s.db.core.gc ==> (k in s'.db.core.gc <==> k !in gone);
    hide GcAfter, Put, Inv;
    forall k | k in s.candidates && k.addr !in s'.dirty
      ensures k in s'.db.core.gc <==> k !in KeySet(ReplacedKeys(s.db, items))
    {
      NotPinned(s.db, mode, items, k);
    }
  }

  lemma NotPinned(db: DB, mode: PutMode, items: seq<Item>, k: GcKey)
    requires k.addr !in Addrs(items)
    ensures k in Dropped(db, mode, items) <==> k in KeySet(ReplacedKeys(db, items))
  {
    hide ReplacedKeys;
    var ks := PinnedKeys(db, mode, items);
    forall i | 0 <= i < |ks| && ks[i].Some? ensures ks[i].value.addr in Addrs(items) {
      assert Addrs(items)[i] == items[i].addr;
    }
  }

  lemma PutStepExact(s: Store, mode: PutMode, items: seq<Item>, times: seq<Now>, t: int)
    requires StoreInv(s, t) && |times| == |items| && Ticking(times, t)
    ensures StoreInv(Do(s, OpPut(mode, items, times)), EndTime(times, t)) <==> Safe(s, OpPut(mode, items, times))
  {
    hide AgreeAt, PutAll, CountsRight, RightByLuck, RefusedCall, ReplacesCandidate;
    if PutShortcut(s, mode, items) {
      AgreeLater(s.db.core, t, EndTime(times, t));
    } else {
      hide PutShortcut;
      PutExact(s.db, mode, items, times, t);
      var s' := Do(s, OpPut(mode, items, times));
      if PutAll(s.db, mode, items, times).PutOk? {
        PutCandidates(s, mode, items, times, t);
      } else {
        CandidatesSame(s, s');
      }
    }
  }

  lemma UpdateStep(s: Store, a: Addr, binID: nat, v: GcValue, now: int, t: int)
    requires StoreInv(s, t) && t < now
    ensures StoreInv(Do(s, OpUpdateGC(a, binID, v, now)), now) <==> Safe(s, OpUpdateGC(a, binID, v, now))
  {
    hide Inv, SameAt, UpdateGC;
    UpdateInv(s.db, a, binID, v, now, t);
    CandidatesSurvive(s, Do(s, OpUpdateGC(a, binID, v, now)), [a]);
  }

  lemma SelectStep(s: Store, keys: seq<GcKey>, gcSize: nat, target: nat, t: int)
    requires StoreInv(s, t) && Timed(s, OpGcSelect(keys, gcSize, target), t)
    ensures StoreInv(Do(s, OpGcSelect(keys, gcSize, target)), t)
  {
    hide Inv;
  }

  /** A step of any interleaving keeps the store's invariant, with the safety of the coming commit, if and only if
      it is safe. */
  lemma StoreStep(s: Store, op: Op, t: int)
    requires StoreInv(s, t) && Timed(s, op, t)
    ensures StoreInv(Do(s, op), Clock(op, t)) <==> Safe(s, op)
  {
    hide Inv, Safe;
    match op {
      case OpPut(mode, items, times) => PutStepExact(s, mode, items, times, t);
      case OpSet(mode, addrs, times) => SetStep(s, mode, addrs, times, t);
      case OpUpdateGC(a, binID, v, now) => UpdateStep(s, a, binID, v, now, t);
      case OpUnreserve(id, bin, addrs, times) =>
        UnreserveInv(s.db, id, bin, addrs, times, t);
        AlwaysSafe(s, op);
      case OpGcSelect(keys, gcSize, target) =>
        SelectStep(s, keys, gcSize, target, t);
        AlwaysSafe(s, op);
      case OpGcCommit =>
        CommitIsSafe(s, t);
        AlwaysSafe(s, op);
      case _ => AlwaysSafe(s, op);
    }
  }

  /** A candidate replaced by a later stamp between selection and commit: gcSize is still right after the put, and
      wrong after the commit, which collects the candidate once more. */
  lemma ReplacedCandidate(po: Addr -> nat)
    ensures var s := Store(OneStamped(po), true, {}, [GcKey(2, 1, 7)]);
      var op := OpPut(PutRequestCache, [LaterItem(8)], [Now(3, 4)]);
      StoreInv(s, 2) && Inv(Do(s, op).db, 4) && !StoreInv(Do(s, op), 4) && !Inv(Commit(Do(s, op)).db, 4)
  {
    hide OneStamped, LaterItem, ReplacedKey, PinnedKey, RefusedItem, Inv, ReplacedBy, Do, Safe, StoreInv, RefusedCall,
         RightByLuck, ReplacesTwice, ReplacesCandidate, PutShortcut, Put, Commit, Agree, ReplacesUnpinned;
    var db, items := OneStamped(po), [LaterItem(8)];
    var s := Store(db, true, {}, [GcKey(2, 1, 7)]);
    CandidateFacts(po);
    LaterFacts(po, 8, PutRequestCache);
    OnlyLater(db, PutRequestCache, items);
    StillCounted(s, items, [Now(3, 4)], 2);
    Unsafe(s, items);
    LostCandidate(s, Do(s, OpPut(PutRequestCache, items, [Now(3, 4)])));
  }

  lemma StillCounted(s: Store, items: seq<Item>, times: seq<Now>, t: int)
    requires StoreInv(s, t) && |times| == |items| && Ticking(times, t)
    requires !ReplacesTwice(s.db, items) && !RefusedCall(s.db, items)
    ensures Inv(Put(s.db, PutRequestCache, items, times), EndTime(times, t))
    ensures StoreInv(Do(s, OpPut(PutRequestCache, items, times)), EndTime(times, t)) <==>
              Safe(s, OpPut(PutRequestCache, items, times))
  {
    PutStepExact(s, PutRequestCache, items, times, t);
    hide Inv, Put, PutAll, RefusedCall, ReplacesTwice, RightByLuck, ReplacesUnpinned, Agree, Ticking, Do, Safe,
         CandidatesHold;
    PutExact(s.db, PutRequestCache, items, times, t);
  }

  lemma LostCandidate(s: Store, s': Store)
    requires s'.candidates == s.candidates && |s.candidates| == 1 && s'.gcRunning && Inv(s'.db, 4) && !StoreInv(s', 4)
    ensures !Inv(Commit(s').db, 4)
  {
    hide Inv, Commit;
    CommitExact(s', 4);
  }

  lemma CandidateFacts(po: Addr -> nat)
    ensures var s, items := Store(OneStamped(po), true, {}, [GcKey(2, 1, 7)]), [LaterItem(8)];
      && StoreInv(s, 2) && ReplacesCandidate(s, items) && !PutShortcut(s, PutRequestCache, items)
      && !ReplacesTwice(s.db, items) && OneStamped(po).gcSize == 1
  {
    var db, items := OneStamped(po), [LaterItem(8)];
    var s := Store(db, true, {}, [GcKey(2, 1, 7)]);
    LaterFacts(po, 8, PutRequestCache);
    assert GcKey(2, 1, 7) in db.core.gc && !PutShortcut(s, PutRequestCache, items);
    hide ReplacedKey, RefusedItem, Inv, ReplacedBy;
    assert First(items, 0) && items[0] == LaterItem(8) && Addrs(items) == [8];
    assert ReplacedKeys(db, items)[0] == Some(GcKey(2, 1, 7));
    assert GcKey(2, 1, 7) in KeySet(ReplacedKeys(db, items));
  }

  lemma Unsafe(s: Store, items: seq<Item>)
    requires |items| == 1 && ReplacesCandidate(s, items) && !PutShortcut(s, PutRequestCache, items)
             && !RefusedCall(s.db, items)
    ensures !Safe(s, OpPut(PutRequestCache, items, [Now(3, 4)]))
    ensures var s' := Do(s, OpPut(PutRequestCache, items, [Now(3, 4)]));
      && s'.db == Put(s.db, PutRequestCache, items, [Now(3, 4)])
      && s'.candidates == s.candidates && s'.gcRunning == s.gcRunning
  {
    hide Put, RefusedCall, ReplacesCandidate, CountsRight, RightByLuck;
  }

  lemma AlwaysSafe(s: Store, op: Op)
    requires !op.OpPut? && !op.OpSet? && !op.OpUpdateGC?
    ensures Safe(s, op)
  {}

  lemma {:induction false} NoneDirty(candidates: seq<GcKey>)
    ensures Clean(candidates, {}) == candidates
  {
    if candidates != [] {
      NoneDirty(candidates[..|candidates| - 1]);
      assert candidates == candidates[..|candidates| - 1] + [candidates[|candidates| - 1]];
    }
  }

  /**
  A collection that nothing interrupts takes the oldest entries out of the gc index, down to the target or by a whole
  batch, and leaves the store ready for the next one.
  */
  lemma CollectionCycle(s: Store, keys: seq<GcKey>, target: nat, t: int)
    requires StoreInv(s, t) && !s.gcRunning && InOrder(keys) && forall k :: k in keys <==> k in s.db.core.gc
    ensures var selected := Do(Do(s, OpGcBegin), OpGcSelect(keys, s.db.gcSize, target));
      var done := Do(Do(selected, OpGcCommit), OpGcEnd);
      && StoreInv(done, t) && done == s.(db := done.db)
      && done.db.gcSize == Max(Min(s.db.gcSize, target), s.db.gcSize - GC_BATCH_SIZE)
      && s.db.gcSize - done.db.gcSize <= |keys|
      && forall k :: k in done.db.core.gc <==> k in keys[s.db.gcSize - done.db.gcSize..]
  {
    hide Inv, Commit, Do;
    var begun := Do(s, OpGcBegin);
    var selected := Do(begun, OpGcSelect(keys, s.db.gcSize, target));
    GcSteps(s, keys, s.db.gcSize, target);
    SelectStep(begun, keys, s.db.gcSize, target, t);
    assert |keys| == s.db.gcSize by { AllListed(s, keys, t); }
    InTwo(keys, |selected.candidates|);
    hide InOrder;
    CommitAll(selected, t);
  }

  lemma AllListed(s: Store, keys: seq<GcKey>, t: int)
    requires StoreInv(s, t) && InOrder(keys) && forall k :: k in keys <==> k in s.db.core.gc
    ensures |keys| == s.db.gcSize
  {
    hide Agree, InOrder;
    IndexListed(s.db.core.gc, keys);
  }

  lemma GcSteps(s: Store, keys: seq<GcKey>, gcSize: nat, target: nat)
    ensures Do(s, OpGcBegin) == s.(gcRunning := true)
    ensures var begun := Do(s, OpGcBegin);
      var selected := Do(begun, OpGcSelect(keys, gcSize, target));
      && selected == begun.(candidates := keys[..SelectCount(gcSize, target, |keys|)])
      && Do(selected, OpGcCommit) == Commit(selected)
      && Do(Commit(selected), OpGcEnd) == Commit(selected).(gcRunning := false, dirty := {}, candidates := [])
  {
    hide Put, Set, UpdateGC, UnreserveBin, Commit, Mark, PutShortcut, SelectCount;
  }

  lemma CommitAll(s: Store, t: int)
    requires StoreInv(s, t) && s.dirty == {}
    ensures var s' := Commit(s);
      && StoreInv(s', t) && s' == s.(db := s'.db, candidates := [])
      && |s.candidates| <= s.db.gcSize && s'.db.gcSize == s.db.gcSize - |s.candidates|
      && forall k :: k in s'.db.core.gc <==> k in s.db.core.gc && k !in s.candidates
  {
    CommitIsSafe(s, t);
    NoneDirty(s.candidates);
    CollectAllGc(s.db.core, s.candidates);
    hide StoreInv, CollectAll, Clean;
  }

  /** What a list in order has behind position n is what it does not have before. */
  lemma InTwo(keys: seq<GcKey>, n: nat)
    requires InOrder(keys) && n <= |keys|
    ensures forall k :: k in keys[n..] <==> k in keys && k !in keys[..n]
  {
    forall k | k in keys && k !in keys[..n] ensures k in keys[n..] {
      var i :| 0 <= i < |keys| && keys[i] == k;
      assert forall j :: 0 <= j < n ==> keys[..n][j] == keys[j];
      assert keys[n..][i - n] == k;
    }
  }

  // ---------------------------------------------------------------- runs

  /** Any interleaving of safe calls, unreserving and collection runs; clocks[i] is the time before step i. */
  ghost predicate StoreRun(states: seq<Store>, ops: seq<Op>, clocks: seq<int>) {
    && |states| == |ops| + 1 && |clocks| == |ops| + 1
    && StoreInv(states[0], clocks[0])
    && forall i :: 0 <= i < |ops| ==>
         && Timed(states[i], ops[i], clocks[i]) && Safe(states[i], ops[i])
         && clocks[i + 1] == Clock(ops[i], clocks[i]) && states[i + 1] == Do(states[i], ops[i])
  }

  lemma {:induction false} IndexesAgree(states: seq<Store>, ops: seq<Op>, clocks: seq<int>, i: nat)
    requires StoreRun(states, ops, clocks) && i <= |ops|
    ensures StoreInv(states[i], clocks[i])
  {
    if i > 0 {
      IndexesAgree(states, ops, clocks, i - 1);
      hide StoreInv, Do, Timed, Safe;
      StoreStep(states[i - 1], ops[i - 1], clocks[i - 1]);
    }
  }

  /** A freshly created store satisfies the invariant. */
  lemma EmptyStore(po: Addr -> nat)
    ensures var db := DB(po, Core(map[], map[], {}, map[], map[]), map[], {}, map[], map[], map[], 0);
            StoreInv(Store(db, false, {}, []), 0)
  {}

  /** In plain terms, at every moment of every run. */
  lemma WhatTheIndexesSay(states: seq<Store>, ops: seq<Op>, clocks: seq<int>, i: nat, a: Addr, k: GcKey)
    requires StoreRun(states, ops, clocks) && i <= |ops|
    ensures states[i].db.gcSize == |states[i].db.core.gc|
    ensures k in states[i].db.core.gc ==> GcEntryCurrent(states[i].db.core, k)
    ensures var c := states[i].db.core;
            a in c.access && a !in c.pin ==> a in c.data && GcKey(c.access[a], c.data[a].binID, a) in c.gc
    ensures k in states[i].candidates && k.addr !in states[i].dirty ==>
              k in states[i].db.core.gc && k.addr !in states[i].db.core.pin
  {
    IndexesAgree(states, ops, clocks, i);
    assert AgreeAt(states[i].db.core, clocks[i], a);
    assert AgreeAt(states[i].db.core, clocks[i], k.addr);
  }
}
