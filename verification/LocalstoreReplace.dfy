/** put calls whose stamps replace stored chunks: the indexes stay in agreement, and exactly when gcSize stays right. */
module LocalstoreReplace {
  import opened Common
  import opened Localstore
  import opened LocalstoreInv
  import opened LocalstoreBatch
  import opened LocalstorePut
  import opened LocalstorePutInv
  import opened LocalstoreKeys
  import opened LocalstoreRepeat

  /** Only putRequest adds the removal of the replaced chunk to its change. */
  predicate CountsReplaced(mode: PutMode) { mode.PutRequest? || mode.PutRequestPin? || mode.PutRequestCache? }

  /** The stored chunk whose place a new one takes because its stamp is later. */
  function ReplacedBy(db: DB, item: Item): Option<Addr> {
    if NoReplacement(db, item) then None else Some(db.postageIndex[StampKey(item.batch, item.index)].addr)
  }

  /** The item is stored as a new chunk, if the call succeeds. */
  predicate IsNew(db: DB, item: Item) {
    var k := StampKey(item.batch, item.index);
    item.addr !in db.core.data
    && (k !in db.postageIndex || (!item.immutable && item.stampTs > db.postageIndex[k].stampTs))
  }

  /** ... and becomes collectable at once. */
  predicate Cached(db: DB, mode: PutMode, item: Item) {
    && IsNew(db, item) && item.addr !in db.core.pin
    && (mode == PutRequestCache || ((mode == PutRequest || mode == PutSync) && db.po(item.addr) < item.radius))
  }

  /** The gc key of a collectable chunk. */
  function KeyIf(c: Core, a: Option<Addr>): Option<GcKey> {
    if a.Some? && Collectable(c, a.value) then Some(KeyOf(c, a.value)) else None
  }

  function PinnedKey(db: DB, mode: PutMode, item: Item): Option<GcKey> {
    KeyIf(db.core, if mode == PutUploadPin then Some(item.addr) else None)
  }

  function ReplacedKey(db: DB, item: Item): Option<GcKey> { KeyIf(db.core, ReplacedBy(db, item)) }

  function One(k: Option<GcKey>): int { if k.Some? then 1 else 0 }

  function Just(k: Option<GcKey>): set<GcKey> { if k.Some? then {k.value} else {} }

  /** The gc key under which a cached item goes in. */
  function NewKey(db: DB, ids: map<nat, nat>, item: Item, now: Now): GcKey {
    GcKey(now.access, NextBinID(db, ids, db.po(item.addr)), item.addr)
  }

  /** The gc keys an item drops, and the one it adds. */
  function Drop(db: DB, mode: PutMode, item: Item): set<GcKey> {
    Just(PinnedKey(db, mode, item)) + Just(ReplacedKey(db, item))
  }

  function Add(db: DB, ids: map<nat, nat>, mode: PutMode, item: Item, now: Now): set<GcKey> {
    if Cached(db, mode, item) then {NewKey(db, ids, item, now)} else {}
  }

  /** How many gc keys an item adds. */
  function New(db: DB, mode: PutMode, item: Item): nat { if Cached(db, mode, item) then 1 else 0 }

  /** The change of gcSize an item reports. */
  function Change(db: DB, mode: PutMode, item: Item): int {
    (if Cached(db, mode, item) then 1 else 0) - One(PinnedKey(db, mode, item))
      - if CountsReplaced(mode) then One(ReplacedKey(db, item)) else 0
  }

  /** What setRemove does to the gc keys. */
  lemma RemoveStep(db: Core, b: Core, a: Addr, t: int)
    requires AgreeAt(db, t, a)
    ensures var s := RemoveIn(db, b, a);
      && (s.Err? <==> a !in db.data)
      && (s.Ok? ==> s.change == -One(KeyIf(db, Some(a))) && s.b.gc.Keys == b.gc.Keys - Just(KeyIf(db, Some(a))))
  {}

  lemma PinStep(db: Core, b: Core, a: Addr, t: int)
    requires AgreeAt(db, t, a)
    ensures var s := PinIn(db, b, a);
      s.Ok? && s.change == -One(KeyIf(db, Some(a))) && s.b.gc.Keys == b.gc.Keys - Just(KeyIf(db, Some(a)))
  {}

  lemma StoreStep(db: DB, b: DB, ids: map<nat, nat>, item: Item, mode: PutMode, change: int, now: Now, t: int)
    requires AgreeAt(db.core, t, item.addr) && IsNew(db, item)
    ensures var s := StoreIn(db, b, ids, item, mode, change, now);
      && s.PutOk?
      && s.change == (if CountsReplaced(mode) then change else 0) + (if Cached(db, mode, item) then 1 else 0)
      && s.b.core.gc.Keys == b.core.gc.Keys + Add(db, ids, mode, item, now)
  {
    var a, bin := item.addr, db.po(item.addr);
    var id := NextBinID(db, ids, bin);
    hide AgreeAt, NewIn, NextBinID;
    NewStep(db.core, b.core, a, Data(now.store, id, item.batch, item.index, item.stampTs), now.access,
            bin >= item.radius, mode, t);
  }

  /** What storing a new chunk does to the gc keys. */
  lemma NewStep(db: Core, b: Core, a: Addr, d: Data, access: int, within: bool, mode: PutMode, t: int)
    requires AgreeAt(db, t, a) && a !in db.data
    ensures var s := NewIn(db, b, a, d, access, within, mode);
      var cached := a !in db.pin && (mode == PutRequestCache || ((mode == PutRequest || mode == PutSync) && !within));
      && s.Ok? && s.change == (if cached then 1 else 0)
      && s.b.gc.Keys == b.gc.Keys + (if cached then {GcKey(access, d.binID, a)} else {})
  {}

  ghost predicate ItemKeys(db: DB, b: DB, ids: map<nat, nat>, item: Item, mode: PutMode, now: Now, s: PutStep) {
    s.PutOk? ==>
      && s.change == Change(db, mode, item)
      && s.b.core.gc.Keys == b.core.gc.Keys - Drop(db, mode, item) + Add(db, ids, mode, item, now)
  }

  lemma NotNewStep(db: DB, b: DB, ids: map<nat, nat>, item: Item, mode: PutMode, now: Now, t: int)
    requires AgreeAt(db.core, t, item.addr) && !IsNew(db, item)
    ensures ItemKeys(db, b, ids, item, mode, now, PutIn(db, b, ids, item, mode, now))
  {
    hide AgreeAt, StoreIn, PutIn, PinIn, CollisionIn, NewKey, IsNew, KeyIf;
    PinStep(db.core, b.core, item.addr, t);
    PutSkips(db, b, ids, item, mode, now);
  }

  lemma PutSkips(db: DB, b: DB, ids: map<nat, nat>, item: Item, mode: PutMode, now: Now)
    requires !IsNew(db, item)
    ensures ReplacedBy(db, item).None? && KeyIf(db.core, None) == None && !Cached(db, mode, item)
    ensures var s := PutIn(db, b, ids, item, mode, now);
      s.PutErr? || exists existed :: s == NotStoredIn(db, b, ids, item, mode, existed)
  {
    hide RemoveIn, StoreIn, PinIn, NotStoredIn;
    var s := PutIn(db, b, ids, item, mode, now);
    assert s.PutErr? || s == NotStoredIn(db, b, ids, item, mode, true)
           || s == NotStoredIn(db, b, ids, item, mode, false);
  }

  lemma FreeStep(db: DB, b: DB, ids: map<nat, nat>, item: Item, mode: PutMode, now: Now, t: int)
    requires AgreeAt(db.core, t, item.addr) && IsNew(db, item) && NoReplacement(db, item)
    ensures ItemKeys(db, b, ids, item, mode, now, PutIn(db, b, ids, item, mode, now))
  {
    hide AgreeAt, StoreIn, PutIn, Add, Cached;
    StoreStep(db, b, ids, item, mode, 0, now, t);
    PutStores(db, b, ids, item, mode, now);
  }

  lemma ReplacingStep(db: DB, b: DB, ids: map<nat, nat>, item: Item, mode: PutMode, now: Now, t: int)
    requires AgreeAt(db.core, t, item.addr) && IsNew(db, item) && !NoReplacement(db, item)
    requires AgreeAt(db.core, t, ReplacedBy(db, item).value)
    ensures ItemKeys(db, b, ids, item, mode, now, PutIn(db, b, ids, item, mode, now))
  {
    hide AgreeAt, StoreIn, PutIn, CollisionIn, RemoveIn, Add, Drop, Change, Cached, Just, One, KeyIf, IsNew,
         NoReplacement;
    var p := ReplacedBy(db, item).value;
    RemoveStep(db.core, b.core, p, t);
    PutReplaces(db, b, ids, item, mode, now);
    var col := CollisionIn(db, b, item);
    if col.Replaced? { StoreStep(db, col.b, ids, item, mode, col.change, now, t); }
    ReplacingKeys(db, mode, item);
  }

  lemma PutReplaces(db: DB, b: DB, ids: map<nat, nat>, item: Item, mode: PutMode, now: Now)
    requires IsNew(db, item) && !NoReplacement(db, item)
    ensures var s, col := RemoveIn(db.core, b.core, ReplacedBy(db, item).value), CollisionIn(db, b, item);
      && (s.Err? ==> PutIn(db, b, ids, item, mode, now).PutErr? && !col.Replaced?)
      && (s.Ok? ==> col.Replaced? && col.b.core == s.b && col.change == s.change)
      && (s.Ok? ==> PutIn(db, b, ids, item, mode, now) == StoreIn(db, col.b, ids, item, mode, col.change, now))
  {
    hide RemoveIn, StoreIn;
  }

  lemma ReplacingKeys(db: DB, mode: PutMode, item: Item)
    requires IsNew(db, item) && !NoReplacement(db, item)
    ensures var k := KeyIf(db.core, Some(ReplacedBy(db, item).value));
      && Drop(db, mode, item) == Just(k)
      && Change(db, mode, item) ==
           (if Cached(db, mode, item) then 1 else 0) - (if CountsReplaced(mode) then One(k) else 0)
  {}

  lemma ItemStep(db: DB, b: DB, ids: map<nat, nat>, item: Item, mode: PutMode, now: Now, t: int)
    requires Agree(db.core, t)
    ensures ItemKeys(db, b, ids, item, mode, now, PutIn(db, b, ids, item, mode, now))
  {
    hide AgreeAt, PutIn, ItemKeys;
    assert AgreeAt(db.core, t, item.addr);
    if !IsNew(db, item) {
      NotNewStep(db, b, ids, item, mode, now, t);
    } else if NoReplacement(db, item) {
      FreeStep(db, b, ids, item, mode, now, t);
    } else {
      assert AgreeAt(db.core, t, ReplacedBy(db, item).value);
      ReplacingStep(db, b, ids, item, mode, now, t);
    }
  }

  // ---------------------------------------------------------------- whole calls

  /** put looks at item i, which does not repeat an address. */
  predicate First(items: seq<Item>, i: nat)
    requires i < |items|
  {
    !Contains(items[..i], items[i].addr)
  }

  function PinnedKeys(db: DB, mode: PutMode, items: seq<Item>): (ks: Keys)
    ensures |ks| == |items|
  {
    seq(|items|, i requires 0 <= i < |items| => if First(items, i) then PinnedKey(db, mode, items[i]) else None)
  }

  function ReplacedKeys(db: DB, items: seq<Item>): (ks: Keys)
    ensures |ks| == |items|
  {
    seq(|items|, i requires 0 <= i < |items| => if First(items, i) then ReplacedKey(db, items[i]) else None)
  }

  /** The gc keys that go away in the call. */
  function Dropped(db: DB, mode: PutMode, items: seq<Item>): set<GcKey> {
    KeySet(PinnedKeys(db, mode, items)) + KeySet(ReplacedKeys(db, items))
  }

  function CachedCount(db: DB, mode: PutMode, items: seq<Item>): nat {
    if items == [] then 0
    else
      var n := |items| - 1;
      CachedCount(db, mode, items[..n]) + if First(items, n) && Cached(db, mode, items[n]) then 1 else 0
  }

  function ReportedChange(db: DB, mode: PutMode, items: seq<Item>): int {
    CachedCount(db, mode, items) - KeyCount(PinnedKeys(db, mode, items))
      - if CountsReplaced(mode) then KeyCount(ReplacedKeys(db, items)) else 0
  }

  /** The gc keys of the batch: the old ones but those gone, and one for each cached item, under the items'
      addresses. */
  ghost predicate After(index: set<GcKey>, now: set<GcKey>, gone: set<GcKey>, cached: nat, addrs: set<Addr>) {
    && gone <= index && |now| + |gone| == |index| + cached
    && (forall k :: k in index ==> (k in now <==> k !in gone))
    && (forall k :: k in now && k !in index ==> k.addr in addrs)
  }

  function AddrSet(items: seq<Item>): set<Addr> { set i | 0 <= i < |items| :: items[i].addr }

  ghost predicate GcAfter(db: DB, b: DB, mode: PutMode, items: seq<Item>) {
    After(db.core.gc.Keys, b.core.gc.Keys, Dropped(db, mode, items), CachedCount(db, mode, items), AddrSet(items))
  }

  lemma KeysNext(db: DB, mode: PutMode, items: seq<Item>)
    requires items != []
    ensures var n := |items| - 1;
      && Dropped(db, mode, items) ==
           Dropped(db, mode, items[..n]) + (if First(items, n) then Drop(db, mode, items[n]) else {})
      && ReportedChange(db, mode, items) ==
           ReportedChange(db, mode, items[..n]) + (if First(items, n) then Change(db, mode, items[n]) else 0)
  {
    hide PinnedKeys, ReplacedKeys, PinnedKey, ReplacedKey, Cached, First, KeySet, KeyCount;
    PinnedNext(db, mode, items);
    ReplacedNext(db, items);
  }

  lemma PinnedNext(db: DB, mode: PutMode, items: seq<Item>)
    requires items != []
    ensures var n := |items| - 1;
      var k := if First(items, n) then PinnedKey(db, mode, items[n]) else None;
      && KeySet(PinnedKeys(db, mode, items)) == KeySet(PinnedKeys(db, mode, items[..n])) + Just(k)
      && KeyCount(PinnedKeys(db, mode, items)) == KeyCount(PinnedKeys(db, mode, items[..n])) + One(k)
  {
    hide PinnedKey, Contains;
    var n := |items| - 1;
    var ks := PinnedKeys(db, mode, items);
    assert forall i :: 0 <= i < n ==> items[..n][..i] == items[..i];
    assert ks[..n] == PinnedKeys(db, mode, items[..n]) && ks[..n + 1] == ks;
    KeySetNext(ks, n);
    hide KeySet, KeyCount;
  }

  lemma ReplacedNext(db: DB, items: seq<Item>)
    requires items != []
    ensures var n := |items| - 1;
      var k := if First(items, n) then ReplacedKey(db, items[n]) else None;
      && KeySet(ReplacedKeys(db, items)) == KeySet(ReplacedKeys(db, items[..n])) + Just(k)
      && KeyCount(ReplacedKeys(db, items)) == KeyCount(ReplacedKeys(db, items[..n])) + One(k)
  {
    hide ReplacedKey, Contains;
    var n := |items| - 1;
    var ks := ReplacedKeys(db, items);
    assert forall i :: 0 <= i < n ==> items[..n][..i] == items[..i];
    assert ks[..n] == ReplacedKeys(db, items[..n]) && ks[..n + 1] == ks;
    KeySetNext(ks, n);
    hide KeySet, KeyCount;
  }

  /** Keys of one address, n of them, that are neither in the database nor in the batch. */
  ghost predicate NewKeys(add: set<GcKey>, n: nat, index: set<GcKey>, now: set<GcKey>, a: Addr) {
    |add| == n && add !! now && add !! index && forall k :: k in add ==> k.addr == a
  }

  /** The same one item later. */
  ghost predicate AfterOne(index: set<GcKey>, now: set<GcKey>, gone: set<GcKey>, cached: nat, addrs: set<Addr>,
                           drop: set<GcKey>, add: set<GcKey>, n: nat, a: Addr) {
    After(index, now - drop + add, gone + drop, cached + n, addrs + {a})
  }

  /** Dropping keys of the index, whether or not they were dropped before, and adding a new one. */
  lemma AfterNext(index: set<GcKey>, now: set<GcKey>, gone: set<GcKey>, cached: nat, addrs: set<Addr>,
                  drop: set<GcKey>, add: set<GcKey>, n: nat, a: Addr)
    requires After(index, now, gone, cached, addrs) && drop <= index && NewKeys(add, n, index, now, a)
    ensures AfterOne(index, now, gone, cached, addrs, drop, add, n, a)
  {
    var d := drop - gone;
    assert now - drop == now - d && gone + drop == gone + d;
    Sizes(now, d);
    Sizes(gone, d);
    Sizes(now - d, add);
  }

  lemma DropInGc(db: DB, mode: PutMode, item: Item)
    ensures Drop(db, mode, item) <= db.core.gc.Keys
  {}

  /** The key of a new chunk is new. */
  lemma AddIsNew(db: DB, now: set<GcKey>, ids: map<nat, nat>, mode: PutMode, addrs: set<Addr>, item: Item, time: Now,
                 t: int)
    requires AgreeAt(db.core, t, item.addr) && item.addr !in addrs
    requires forall k :: k in now && k !in db.core.gc.Keys ==> k.addr in addrs
    ensures NewKeys(Add(db, ids, mode, item, time), New(db, mode, item), db.core.gc.Keys, now, item.addr)
  {}

  lemma Addresses(items: seq<Item>)
    requires items != []
    ensures var n := |items| - 1;
            AddrSet(items) == AddrSet(items[..n]) + {items[n].addr}
            && (First(items, n) <==> items[n].addr !in AddrSet(items[..n]))
  {
    var n := |items| - 1;
    assert items == items[..n] + [items[n]];
    forall a ensures a in AddrSet(items[..n]) <==> Contains(items[..n], a) {}
    forall a | a in AddrSet(items) ensures a in AddrSet(items[..n]) + {items[n].addr} {
      var i :| 0 <= i < |items| && items[i].addr == a;
      if i < n { assert items[..n][i].addr == a; }
    }
    forall a | a in AddrSet(items[..n]) ensures a in AddrSet(items) {
      var i :| 0 <= i < n && items[..n][i].addr == a;
      assert items[i].addr == a;
    }
  }

  lemma GcAfterNext(db: DB, b: DB, ids: map<nat, nat>, mode: PutMode, items: seq<Item>, now: Now, s: PutStep, t: int)
    requires items != [] && AgreeAt(db.core, t, items[|items| - 1].addr) && First(items, |items| - 1)
    requires GcAfter(db, b, mode, items[..|items| - 1])
    requires s.PutOk? && ItemKeys(db, b, ids, items[|items| - 1], mode, now, s)
    ensures GcAfter(db, s.b, mode, items)
  {
    hide AgreeAt, Cached, Drop, Add, Change, Dropped, AddrSet, First, CachedCount, ReportedChange, After, New;
    Addresses(items);
    AfterItem(db, b, ids, mode, items[..|items| - 1], items[|items| - 1], now, t);
    CachedNext(db, mode, items);
    KeysNext(db, mode, items);
  }

  lemma AfterItem(db: DB, b: DB, ids: map<nat, nat>, mode: PutMode, prior: seq<Item>, item: Item, now: Now, t: int)
    requires AgreeAt(db.core, t, item.addr) && item.addr !in AddrSet(prior) && GcAfter(db, b, mode, prior)
    ensures AfterOne(db.core.gc.Keys, b.core.gc.Keys, Dropped(db, mode, prior), CachedCount(db, mode, prior),
                     AddrSet(prior), Drop(db, mode, item), Add(db, ids, mode, item, now), New(db, mode, item),
                     item.addr)
  {
    hide AgreeAt, Cached, Drop, Add, Dropped, AddrSet, CachedCount, NewKeys, New, After, AfterOne;
    AddIsFresh(db, b, ids, mode, prior, item, now, t);
    DropInGc(db, mode, item);
    AfterNext(db.core.gc.Keys, b.core.gc.Keys, Dropped(db, mode, prior), CachedCount(db, mode, prior),
              AddrSet(prior), Drop(db, mode, item), Add(db, ids, mode, item, now), New(db, mode, item), item.addr);
  }

  lemma AddIsFresh(db: DB, b: DB, ids: map<nat, nat>, mode: PutMode, prior: seq<Item>, item: Item, now: Now, t: int)
    requires AgreeAt(db.core, t, item.addr) && item.addr !in AddrSet(prior) && GcAfter(db, b, mode, prior)
    ensures NewKeys(Add(db, ids, mode, item, now), New(db, mode, item), db.core.gc.Keys, b.core.gc.Keys, item.addr)
  {
    hide AgreeAt, Cached, Add, Dropped, AddrSet, CachedCount, New;
    AddIsNew(db, b.core.gc.Keys, ids, mode, AddrSet(prior), item, now, t);
  }

  lemma CachedNext(db: DB, mode: PutMode, items: seq<Item>)
    requires items != [] && First(items, |items| - 1)
    ensures var n := |items| - 1;
      CachedCount(db, mode, items) == CachedCount(db, mode, items[..n]) + New(db, mode, items[n])
  {
    hide Cached, First;
  }

  lemma GcAfterSkip(db: DB, b: DB, mode: PutMode, items: seq<Item>)
    requires items != [] && !First(items, |items| - 1) && GcAfter(db, b, mode, items[..|items| - 1])
    ensures GcAfter(db, b, mode, items)
  {
    hide AddrSet, First, Dropped, Cached;
    Addresses(items);
    KeysNext(db, mode, items);
    assert Dropped(db, mode, items) == Dropped(db, mode, items[..|items| - 1]);
  }

  lemma {:induction false} CallGc(db: DB, mode: PutMode, items: seq<Item>, times: seq<Now>, t: int)
    requires Agree(db.core, t) && |times| == |items|
    ensures var r := PutAll(db, mode, items, times);
      r.PutOk? ==> GcAfter(db, r.b, mode, items) && r.change == ReportedChange(db, mode, items)
    decreases |items|
  {
    hide AgreeAt, PutIn, ItemKeys, GcAfter, ReportedChange, First, Dropped, Drop, Change;
    if items == [] {
      NothingGone(db, mode);
    } else {
      hide PutAll;
      var n := |items| - 1;
      CallGc(db, mode, items[..n], times[..n], t);
      var r := PutAll(db, mode, items[..n], times[..n]);
      PutNext(db, mode, items, times);
      KeysNext(db, mode, items);
      if r.PutOk? {
        if First(items, n) {
          var s := PutIn(db, r.b, r.ids, items[n], mode, times[n]);
          ItemStep(db, r.b, r.ids, items[n], mode, times[n], t);
          assert AgreeAt(db.core, t, items[n].addr);
          if s.PutOk? {
            GcAfterNext(db, r.b, r.ids, mode, items, times[n], s, t);
            ItemChange(db, r.b, r.ids, items[n], mode, times[n], s);
            SameGc(db, s, s.(change := r.change + s.change), mode, items);
          }
        } else {
          GcAfterSkip(db, r.b, mode, items);
        }
      }
    }
  }

  lemma NothingGone(db: DB, mode: PutMode)
    ensures GcAfter(db, db, mode, []) && ReportedChange(db, mode, []) == 0
  {}

  lemma SameGc(db: DB, s: PutStep, u: PutStep, mode: PutMode, items: seq<Item>)
    requires s.PutOk? && u.PutOk? && u.b == s.b && GcAfter(db, s.b, mode, items)
    ensures GcAfter(db, u.b, mode, items)
  {}

  lemma PutNext(db: DB, mode: PutMode, items: seq<Item>, times: seq<Now>)
    requires |times| == |items| > 0
    ensures var n := |items| - 1;
      var r := PutAll(db, mode, items[..n], times[..n]);
      PutAll(db, mode, items, times) ==
        if r.PutErr? || !First(items, n) then r
        else var s := PutIn(db, r.b, r.ids, items[n], mode, times[n]);
          if s.PutErr? then s else s.(change := r.change + s.change)
  {
    hide PutIn, Contains;
  }

  lemma ItemChange(db: DB, b: DB, ids: map<nat, nat>, item: Item, mode: PutMode, now: Now, s: PutStep)
    requires ItemKeys(db, b, ids, item, mode, now, s) && s.PutOk?
    ensures s.change == Change(db, mode, item)
  {}

  // ---------------------------------------------------------------- agreement

  /** The batch has removed what was stored under x. */
  ghost predicate RemovedAt(db: Core, b: Core, x: Addr) {
    && x !in b.data && x !in b.access && (forall k: GcKey :: k in b.gc ==> k.addr != x)
    && (forall k: PushKey :: k in b.push && k.addr == x ==> k in db.push)
  }

  /** What a put call can do to a stored chunk: nothing, pin it, or remove it. */
  ghost predicate StoredAt(db: Core, b: Core, x: Addr) {
    SameAt(db, b, x) || SameAt(PinIn(db, db, x).b, b, x) || RemovedAt(db, b, x)
  }

  lemma StoredAgrees(db: Core, b: Core, x: Addr, t: int, t': int)
    requires StoredAt(db, b, x) && AgreeAt(db, t, x) && t <= t'
    ensures AgreeAt(b, t', x)
  {
    if SameAt(db, b, x) {
      hide SameAt, AgreeAt;
      LaterAgrees(db, t, t', x);
      SameAgrees(db, b, t', x);
    } else if SameAt(PinIn(db, db, x).b, b, x) {
      PinAgrees(db, x, t);
      hide SameAt, AgreeAt, PinIn;
      LaterAgrees(PinIn(db, db, x).b, t, t', x);
      SameAgrees(PinIn(db, db, x).b, b, t', x);
    }
  }

  lemma SamePins(db: Core, x: Addr)
    ensures SameAt(PinIn(db, db, x).b, PinIn(db, PinIn(db, db, x).b, x).b, x)
  {}

  lemma PinRemoved(db: Core, b: Core, x: Addr)
    requires RemovedAt(db, b, x)
    ensures RemovedAt(db, PinIn(db, b, x).b, x)
  {}

  lemma StoredPin(db: Core, b: Core, x: Addr)
    requires StoredAt(db, b, x)
    ensures StoredAt(db, PinIn(db, b, x).b, x)
  {
    hide SameAt, RemovedAt, PinIn;
    var p := PinIn(db, db, x).b;
    if SameAt(db, b, x) {
      PinInSame(db, db, b, x);
    } else if SameAt(p, b, x) {
      SamePins(db, x);
      PinInSame(db, p, b, x);
      SameTrans(p, PinIn(db, p, x).b, PinIn(db, b, x).b, x);
    } else {
      PinRemoved(db, b, x);
    }
  }

  lemma StoredRemove(db: Core, b: Core, x: Addr, t: int)
    requires StoredAt(db, b, x) && AgreeAt(db, t, x) && x in db.data
    ensures RemovedAt(db, RemoveIn(db, b, x).b, x)
  {
    var k := KeyOf(db, x);
    forall m: GcKey | m in b.gc && m.addr == x ensures m == k && k in db.gc {
      assert (SameAt(db, b, x) ==> m in db.gc) && (SameAt(PinIn(db, db, x).b, b, x) ==> m in PinIn(db, db, x).b.gc);
    }
    forall m: PushKey | m in b.push && m.addr == x ensures m in db.push {
      assert SameAt(PinIn(db, db, x).b, b, x) ==> m in PinIn(db, db, x).b.push;
    }
  }

  ghost predicate ShapeAt(db: Core, b: Core, addrs: set<Addr>, t': int, x: Addr) {
    if x in db.data then StoredAt(db, b, x)
    else if x in addrs then AgreeAt(b, t', x)
    else SameAt(db, b, x)
  }

  lemma ShapeKept(db: Core, b: Core, e: Core, addrs: set<Addr>, a: Addr, t1: int, t2: int, x: Addr)
    requires ShapeAt(db, b, addrs, t1, x) && SameAt(b, e, x) && t1 <= t2 && x != a
    ensures ShapeAt(db, e, addrs + {a}, t2, x)
  {
    hide PinIn, SameAt, AgreeAt, RemovedAt;
    if x in db.data {
      if SameAt(db, b, x) {
        SameTrans(db, b, e, x);
      } else if SameAt(PinIn(db, db, x).b, b, x) {
        SameTrans(PinIn(db, db, x).b, b, e, x);
      } else {
        RemovedSame(db, b, e, x);
      }
    } else if x in addrs {
      LaterAgrees(b, t1, t2, x);
      SameAgrees(b, e, t2, x);
    } else {
      SameTrans(db, b, e, x);
    }
  }

  lemma RemovedSame(db: Core, b: Core, e: Core, x: Addr)
    requires RemovedAt(db, b, x) && SameAt(b, e, x)
    ensures RemovedAt(db, e, x)
  {}

  ghost predicate Shaped(db: Core, b: Core, addrs: set<Addr>, t': int) { forall x :: ShapeAt(db, b, addrs, t', x) }

  /** A step that works under a only. */
  lemma ShapedNext(db: Core, b: Core, e: Core, addrs: set<Addr>, a: Addr, t1: int, t2: int)
    requires Shaped(db, b, addrs, t1) && OnlyAt(b, e, a) && t1 <= t2 && ShapeAt(db, e, addrs + {a}, t2, a)
    ensures Shaped(db, e, addrs + {a}, t2)
  {
    hide ShapeAt, SameAt;
    forall x ensures ShapeAt(db, e, addrs + {a}, t2, x) {
      if x != a { ShapeKept(db, b, e, addrs, a, t1, t2, x); }
    }
  }

  lemma ShapedAgrees(db: Core, b: Core, addrs: set<Addr>, t: int, t': int)
    requires Agree(db, t) && t <= t' && Shaped(db, b, addrs, t')
    ensures Agree(b, t')
  {
    hide AgreeAt, SameAt, StoredAt;
    forall x ensures AgreeAt(b, t', x) {
      assert AgreeAt(db, t, x) && ShapeAt(db, b, addrs, t', x);
      if x in db.data {
        StoredAgrees(db, b, x, t, t');
      } else if x !in addrs {
        LaterAgrees(db, t, t', x);
        SameAgrees(db, b, t', x);
      }
    }
  }

  lemma PinShape(db: Core, b: Core, a: Addr, addrs: set<Addr>, t: int, t1: int, t2: int)
    requires Shaped(db, b, addrs, t1) && AgreeAt(db, t, a) && a !in addrs && t <= t1 <= t2
    ensures Shaped(db, PinIn(db, b, a).b, addrs + {a}, t2) && Shaped(db, b, addrs + {a}, t2)
  {
    hide SameAt, AgreeAt, PinIn, OnlyAt, StoredAt;
    assert ShapeAt(db, b, addrs, t1, a);
    OnlyAtSelf(b, a);
    PinOnlyAt(db, b, b, a);
    var e := PinIn(db, b, a).b;
    if a in db.data {
      StoredPin(db, b, a);
    } else {
      PinInSame(db, db, b, a);
      PinAgrees(db, a, t);
      LaterAgrees(PinIn(db, db, a).b, t, t2, a);
      SameAgrees(PinIn(db, db, a).b, e, t2, a);
      LaterAgrees(db, t, t2, a);
      SameAgrees(db, b, t2, a);
    }
    hide Shaped;
    ShapedNext(db, b, e, addrs, a, t1, t2);
    ShapedNext(db, b, b, addrs, a, t1, t2);
  }

  lemma RemoveShape(db: Core, b: Core, p: Addr, addrs: set<Addr>, t: int, t1: int)
    requires Shaped(db, b, addrs, t1) && AgreeAt(db, t, p) && p in db.data
    ensures Shaped(db, RemoveIn(db, b, p).b, addrs, t1)
  {
    hide SameAt, AgreeAt, RemoveIn, OnlyAt, RemovedAt;
    assert ShapeAt(db, b, addrs, t1, p);
    OnlyAtSelf(b, p);
    RemoveOnlyAt(db, b, b, p);
    StoredRemove(db, b, p, t);
    var e := RemoveIn(db, b, p).b;
    ShapedNext(db, b, e, addrs, p, t1, t1);
    forall x ensures ShapeAt(db, e, addrs, t1, x) { assert ShapeAt(db, e, addrs + {p}, t1, x); }
  }

  lemma NewShape(db: Core, b: Core, a: Addr, d: Data, access: int, within: bool, mode: PutMode, addrs: set<Addr>,
                 t: int, t1: int)
    requires Shaped(db, b, addrs, t1) && AgreeAt(db, t, a) && a !in addrs && a !in db.data
    requires 0 <= t <= t1 < d.storeTs < access
    ensures NewIn(db, b, a, d, access, within, mode).Ok?
    ensures Shaped(db, NewIn(db, b, a, d, access, within, mode).b, addrs + {a}, access)
  {
    hide SameAt, AgreeAt, NewIn, OnlyAt, StoredAt;
    assert ShapeAt(db, b, addrs, t1, a);
    SameAgrees(db, b, t, a);
    AbsentToo(db, b, a);
    NewReadsAgree(db, b, a, d, access, within, mode);
    NewKept(b, a, d, access, within, mode, t, access);
    hide Shaped;
    ShapedNext(db, b, NewIn(db, b, a, d, access, within, mode).b, addrs, a, t1, access);
  }

  lemma StoreShape(db: DB, b: DB, ids: map<nat, nat>, item: Item, mode: PutMode, change: int, now: Now,
                   addrs: set<Addr>, t: int, t1: int)
    requires Shaped(db.core, b.core, addrs, t1) && AgreeAt(db.core, t, item.addr) && item.addr !in addrs
             && item.addr !in db.core.data
    requires 0 <= t <= t1 < now.store < now.access
    ensures var s := StoreIn(db, b, ids, item, mode, change, now);
            s.PutOk?
            && Shaped(db.core, s.b.core, addrs + {item.addr}, now.access)
  {
    hide Shaped, AgreeAt, NewIn, NextBinID;
    var d := Data(now.store, NextBinID(db, ids, db.po(item.addr)), item.batch, item.index, item.stampTs);
    NewShape(db.core, b.core, item.addr, d, now.access, db.po(item.addr) >= item.radius, mode, addrs, t, t1);
  }

  lemma ItemShape(db: DB, b: DB, ids: map<nat, nat>, item: Item, mode: PutMode, now: Now, addrs: set<Addr>, t: int,
                  t1: int)
    requires Agree(db.core, t) && Shaped(db.core, b.core, addrs, t1) && item.addr !in addrs
             && t <= t1 < now.store < now.access
    ensures var s := PutIn(db, b, ids, item, mode, now);
            s.PutOk? ==>
              Shaped(db.core, s.b.core, addrs + {item.addr}, now.access)
  {
    hide AgreeAt, Shaped, StoreIn, PinIn, RemoveIn, PutIn, CollisionIn;
    assert AgreeAt(db.core, t, item.addr);
    if !IsNew(db, item) {
      PutSkips(db, b, ids, item, mode, now);
      PinShape(db.core, b.core, item.addr, addrs, t, t1, now.access);
    } else if NoReplacement(db, item) {
      PutStores(db, b, ids, item, mode, now);
      StoreShape(db, b, ids, item, mode, 0, now, addrs, t, t1);
    } else {
      var p := ReplacedBy(db, item).value;
      assert AgreeAt(db.core, t, p);
      PutReplaces(db, b, ids, item, mode, now);
      RemoveStep(db.core, b.core, p, t);
      var col := CollisionIn(db, b, item);
      if col.Replaced? {
        RemoveShape(db.core, b.core, p, addrs, t, t1);
        StoreShape(db, col.b, ids, item, mode, col.change, now, addrs, t, t1);
      }
    }
  }

  lemma PutStores(db: DB, b: DB, ids: map<nat, nat>, item: Item, mode: PutMode, now: Now)
    requires IsNew(db, item) && NoReplacement(db, item)
    ensures PutIn(db, b, ids, item, mode, now) == StoreIn(db, b, ids, item, mode, 0, now)
  {
    hide StoreIn, RemoveIn;
  }

  lemma {:induction false} CallShape(db: DB, mode: PutMode, items: seq<Item>, times: seq<Now>, t: int)
    requires Agree(db.core, t) && |times| == |items| && Ticking(times, t)
    ensures var r := PutAll(db, mode, items, times);
            r.PutOk? ==>
              Shaped(db.core, r.b.core, AddrSet(items), EndTime(times, t))
    decreases |items|
  {
    hide AgreeAt, PutIn, Contains;
    if items == [] {
      SameEverywhere(db.core);
    } else {
      hide Shaped, PutAll, AddrSet, First;
      var n := |items| - 1;
      LastTick(times, t, n);
      CallShape(db, mode, items[..n], times[..n], t);
      PutNext(db, mode, items, times);
      Addresses(items);
      var r := PutAll(db, mode, items[..n], times[..n]);
      var t1 := EndTime(times[..n], t);
      if r.PutOk? {
        if First(items, n) {
          ItemShape(db, r.b, r.ids, items[n], mode, times[n], AddrSet(items[..n]), t, t1);
        } else {
          ShapedLater(db.core, r.b.core, AddrSet(items[..n]), t1, times[n].access);
          assert AddrSet(items) == AddrSet(items[..n]);
        }
      }
    }
  }

  lemma ShapedLater(db: Core, b: Core, addrs: set<Addr>, t1: int, t2: int)
    requires Shaped(db, b, addrs, t1) && t1 <= t2
    ensures Shaped(db, b, addrs, t2)
  {
    hide AgreeAt, SameAt, StoredAt;
    forall x ensures ShapeAt(db, b, addrs, t2, x) {
      assert ShapeAt(db, b, addrs, t1, x);
      if x !in db.data && x in addrs { LaterAgrees(b, t1, t2, x); }
    }
  }

  // ---------------------------------------------------------------- when gcSize is right

  /** Two items of the call replace the same collectable chunk. */
  predicate ReplacesTwice(db: DB, items: seq<Item>) {
    exists i, j :: 0 <= i < j < |items| && First(items, i) && First(items, j) &&
      ReplacedKey(db, items[i]).Some? && ReplacedBy(db, items[i]) == ReplacedBy(db, items[j])
  }

  /** Some item of the call replaces a collectable chunk that the call does not also pin. */
  predicate ReplacesUnpinned(db: DB, mode: PutMode, items: seq<Item>) {
    exists i :: 0 <= i < |items| && First(items, i) && ReplacedKey(db, items[i]).Some? &&
      !(mode == PutUploadPin && Contains(items, ReplacedBy(db, items[i]).value))
  }

  /** The reported change is the real one. */
  predicate CountsRight(db: DB, mode: PutMode, items: seq<Item>) {
    if CountsReplaced(mode) then !ReplacesTwice(db, items) else !ReplacesUnpinned(db, mode, items)
  }

  /** gcSize would go below zero, so it is left as it is, and the call happens to cache as many chunks as it drops. */
  predicate RightByLuck(db: DB, mode: PutMode, items: seq<Item>) {
    -ReportedChange(db, mode, items) > db.gcSize && CachedCount(db, mode, items) == |Dropped(db, mode, items)|
  }

  lemma KeyIfIs(c: Core, a: Option<Addr>, b: Option<Addr>)
    ensures KeyIf(c, a).Some? ==> a.Some? && KeyIf(c, a).value.addr == a.value
    ensures KeyIf(c, a).Some? ==> (KeyIf(c, a) == KeyIf(c, b) <==> a == b)
  {}

  lemma NotAgain(items: seq<Item>, i: nat, j: nat)
    requires i < j < |items|
    ensures First(items, j) ==> items[i].addr != items[j].addr
  {
    assert items[..j][i] == items[i];
  }

  /** put takes each address once, so no pinned key comes twice. */
  lemma PinsOnce(db: DB, mode: PutMode, items: seq<Item>)
    ensures |KeySet(PinnedKeys(db, mode, items))| == KeyCount(PinnedKeys(db, mode, items))
    ensures mode != PutUploadPin ==> KeySet(PinnedKeys(db, mode, items)) == {}
  {
    var ks := PinnedKeys(db, mode, items);
    forall i, j | 0 <= i < j < |ks| && ks[i].Some? ensures ks[i] != ks[j] {
      KeyIfIs(db.core, Some(items[i].addr), Some(items[j].addr));
      NotAgain(items, i, j);
    }
    assert !Twice(ks);
    hide PinnedKeys, KeySet, KeyCount, Twice;
    assert ks[..|ks|] == ks;
    CountKeys(ks, |ks|);
  }

  lemma ReplacedOnce(db: DB, items: seq<Item>)
    ensures |KeySet(ReplacedKeys(db, items))| == KeyCount(ReplacedKeys(db, items)) <==> !ReplacesTwice(db, items)
  {
    hide First, KeyIf, ReplacedBy;
    var ks := ReplacedKeys(db, items);
    assert ks[..|ks|] == ks;
    CountKeys(ks, |ks|);
    hide KeySet, KeyCount;
    if i, j :| 0 <= i < j < |ks| && ks[i].Some? && ks[i] == ks[j] {
      KeyIfIs(db.core, ReplacedBy(db, items[i]), ReplacedBy(db, items[j]));
    }
    if ReplacesTwice(db, items) {
      var i, j :| 0 <= i < j < |items| && First(items, i) && First(items, j) &&
        ReplacedKey(db, items[i]).Some? && ReplacedBy(db, items[i]) == ReplacedBy(db, items[j]);
      assert ks[i] == ks[j];
    }
  }

  lemma {:induction false} FirstOf(items: seq<Item>, a: Addr, n: nat)
    requires n <= |items| && Contains(items[..n], a)
    ensures exists i :: 0 <= i < n && First(items, i) && items[i].addr == a
  {
    var i :| 0 <= i < n && items[..n][i].addr == a;
    if Contains(items[..i], a) { FirstOf(items, a, i); } else { assert First(items, i); }
  }

  /** The call pins the collectable chunk p exactly when p is one of its items and it pins at all. */
  lemma PinnedIs(db: DB, mode: PutMode, items: seq<Item>, p: Addr)
    requires Collectable(db.core, p)
    ensures KeyOf(db.core, p) in KeySet(PinnedKeys(db, mode, items)) <==> mode == PutUploadPin && Contains(items, p)
  {
    var ks, k := PinnedKeys(db, mode, items), KeyOf(db.core, p);
    if k in KeySet(ks) {
      var i :| 0 <= i < |ks| && ks[i].Some? && ks[i].value == k;
      KeyIfIs(db.core, Some(items[i].addr), Some(p));
      assert items[i].addr == p;
    }
    if mode == PutUploadPin && Contains(items, p) {
      assert items[..|items|] == items;
      FirstOf(items, p, |items|);
      var i :| 0 <= i < |items| && First(items, i) && items[i].addr == p;
      assert ks[i] == Some(k);
    }
  }

  lemma ReplacedArePinned(db: DB, mode: PutMode, items: seq<Item>)
    ensures KeySet(ReplacedKeys(db, items)) <= KeySet(PinnedKeys(db, mode, items)) <==>
              !ReplacesUnpinned(db, mode, items)
  {
    hide First, Contains, PinnedKeys, ReplacedBy;
    var ks, ps := ReplacedKeys(db, items), KeySet(PinnedKeys(db, mode, items));
    forall i | 0 <= i < |items| && First(items, i) && ReplacedKey(db, items[i]).Some?
      ensures ks[i].value in KeySet(ks)
      ensures ks[i].value in ps <==> mode == PutUploadPin && Contains(items, ReplacedBy(db, items[i]).value)
    {
      PinnedIs(db, mode, items, ReplacedBy(db, items[i]).value);
    }
  }

  lemma RightCount(db: DB, mode: PutMode, items: seq<Item>)
    ensures CachedCount(db, mode, items) - |Dropped(db, mode, items)| == ReportedChange(db, mode, items) <==>
              CountsRight(db, mode, items)
  {
    hide KeySet, KeyCount, PinnedKeys, ReplacedKeys, ReplacesTwice, ReplacesUnpinned, CachedCount;
    PinsOnce(db, mode, items);
    ReplacedOnce(db, items);
    ReplacedArePinned(db, mode, items);
    var ps, rs := KeySet(PinnedKeys(db, mode, items)), KeySet(ReplacedKeys(db, items));
    Sizes(ps, rs);
    assert ps == {} ==> ps + rs == rs;
  }

  /** put refuses the call because of this item: its stamp is taken in an immutable batch, or names a chunk that is
      not there. */
  predicate RefusedItem(db: DB, item: Item) {
    var k := StampKey(item.batch, item.index);
    item.addr !in db.core.data && k in db.postageIndex &&
    (item.immutable || (item.stampTs > db.postageIndex[k].stampTs && db.postageIndex[k].addr !in db.core.data))
  }

  lemma ItemFails(db: DB, b: DB, ids: map<nat, nat>, item: Item, mode: PutMode, now: Now, t: int)
    requires Agree(db.core, t)
    ensures PutIn(db, b, ids, item, mode, now).PutErr? <==> RefusedItem(db, item)
  {
    hide AgreeAt, StoreIn, PinIn, RemoveIn;
    assert AgreeAt(db.core, t, item.addr);
    PinStep(db.core, b.core, item.addr, t);
    if IsNew(db, item) {
      StoreStep(db, b, ids, item, mode, 0, now, t);
      if !NoReplacement(db, item) {
        hide PutIn, CollisionIn;
        var p := ReplacedBy(db, item).value;
        assert AgreeAt(db.core, t, p);
        RemoveStep(db.core, b.core, p, t);
        PutReplaces(db, b, ids, item, mode, now);
        var col := CollisionIn(db, b, item);
        if col.Replaced? { StoreStep(db, col.b, ids, item, mode, col.change, now, t); }
      }
    }
  }

  /** Some item put looks at is refused. */
  predicate RefusedCall(db: DB, items: seq<Item>) {
    exists i :: 0 <= i < |items| && First(items, i) && RefusedItem(db, items[i])
  }

  lemma {:induction false} CallFails(db: DB, mode: PutMode, items: seq<Item>, times: seq<Now>, t: int)
    requires Agree(db.core, t) && |times| == |items|
    ensures PutAll(db, mode, items, times).PutErr? <==> RefusedCall(db, items)
    decreases |items|
  {
    hide AgreeAt, PutIn, Contains, RefusedItem;
    if items != [] {
      hide PutAll;
      var n := |items| - 1;
      CallFails(db, mode, items[..n], times[..n], t);
      PutNext(db, mode, items, times);
      var r := PutAll(db, mode, items[..n], times[..n]);
      assert forall i :: 0 <= i < n ==> items[..n][..i] == items[..i] && items[..n][i] == items[i];
      if r.PutOk? { ItemFails(db, r.b, r.ids, items[n], mode, times[n], t); }
    }
  }

  /**
  A put call, in any mode and with any stamps, keeps the indexes in agreement.  Its change of gcSize is the
  real one if and only if: for the request modes, no collectable chunk is replaced twice in the call; for
  upload and sync, none is replaced at all; for upload with pinning, only ones the call also pins.  gcSize
  itself is then right, and besides only when the counter refused to go below zero and was right by luck.
  */
  lemma PutExact(db: DB, mode: PutMode, items: seq<Item>, times: seq<Now>, t: int)
    requires Inv(db, t) && |times| == |items| && Ticking(times, t)
    ensures var db', r := Put(db, mode, items, times), PutAll(db, mode, items, times);
      && Agree(db'.core, EndTime(times, t))
      && (r.PutErr? <==> RefusedCall(db, items))
      && (r.PutOk? ==> (|db'.core.gc| == |db.core.gc| + r.change <==> CountsRight(db, mode, items)))
      && (Inv(db', EndTime(times, t)) <==>
            RefusedCall(db, items) || CountsRight(db, mode, items) || RightByLuck(db, mode, items))
  {
    hide AgreeAt, PutAll, Shaped, CachedCount, Dropped, ReportedChange, CountsRight, RefusedCall;
    var r := PutAll(db, mode, items, times);
    CallFails(db, mode, items, times, t);
    if r.PutOk? {
      CallShape(db, mode, items, times, t);
      ShapedAgrees(db.core, r.b.core, AddrSet(items), t, EndTime(times, t));
      CallGc(db, mode, items, times, t);
      RightCount(db, mode, items);
      assert |r.b.core.gc| == |r.b.core.gc.Keys| && |db.core.gc| == |db.core.gc.Keys|;
    } else {
      AgreeLater(db.core, t, EndTime(times, t));
    }
  }

  // ---------------------------------------------------------------- calls that break gcSize

  /** A store with the collectable chunk 7, stamped with index 1 of batch 1. */
  function OneStamped(po: Addr -> nat): DB {
    DB(po, Core(map[7 := Data(1, 1, 1, 1, 1)], map[7 := 2], {}, map[GcKey(2, 1, 7) := GcValue(1, 1)], map[]),
       map[], {}, map[StampKey(1, 1) := StampValue(7, 1)], map[], map[], 1)
  }

  /** A new chunk with a later stamp of the same index. */
  function LaterItem(a: Addr): Item { Item(a, 1, 1, 2, 0, false) }

  lemma LaterFacts(po: Addr -> nat, a: Addr, mode: PutMode)
    requires a != 7
    ensures var db, item := OneStamped(po), LaterItem(a);
      && !RefusedItem(db, item) && ReplacedBy(db, item) == Some(7) && PinnedKey(db, mode, item) == None
      && ReplacedKey(db, item) == Some(GcKey(2, 1, 7)) && Inv(db, 2)
  {
    var db := OneStamped(po);
    assert GcKey(2, 1, 7) in db.core.gc && KeyOf(db.core, 7) == GcKey(2, 1, 7);
  }

  /** Putting one such chunk leaves gcSize wrong in the modes that drop the count of the removal. */
  lemma OneReplacementBreaks(po: Addr -> nat, mode: PutMode)
    requires !CountsReplaced(mode)
    ensures Inv(OneStamped(po), 2) && !Inv(Put(OneStamped(po), mode, [LaterItem(8)], [Now(3, 4)]), 4)
  {
    var db, items := OneStamped(po), [LaterItem(8)];
    LaterFacts(po, 8, mode);
    hide OneStamped, LaterItem, ReplacedBy, ReplacedKey, PinnedKey, RefusedItem, Inv;
    assert First(items, 0) && items[0] == LaterItem(8);
    OnlyLater(db, mode, items);
    assert ReplacesUnpinned(db, mode, items) by { assert !Contains(items, 7) by { LaterAddr(8); } }
    PutExact(db, mode, items, [Now(3, 4)], 2);
  }

  lemma LaterAddr(a: Addr)
    ensures LaterItem(a).addr == a
  {}

  /** Putting two of them in one call leaves it wrong in the other modes. */
  lemma TwoReplacementsBreak(po: Addr -> nat, mode: PutMode)
    requires CountsReplaced(mode)
    ensures Inv(OneStamped(po), 2)
    ensures !Inv(Put(OneStamped(po), mode, [LaterItem(8), LaterItem(9)], [Now(3, 4), Now(5, 6)]), 6)
  {
    hide OneStamped, LaterItem, ReplacedBy, ReplacedKey, PinnedKey, RefusedItem, Inv, Put, RefusedCall, RightByLuck,
         ReplacesTwice;
    var db, items := OneStamped(po), [LaterItem(8), LaterItem(9)];
    LaterFacts(po, 8, mode);
    LaterFacts(po, 9, mode);
    OneCounted(po);
    BothReplace(po);
    OnlyLater(db, mode, items);
    TwiceBreaks(db, mode, items, [Now(3, 4), Now(5, 6)], 2);
  }

  lemma BothReplace(po: Addr -> nat)
    ensures ReplacesTwice(OneStamped(po), [LaterItem(8), LaterItem(9)])
  {
    hide OneStamped, LaterItem, ReplacedBy, ReplacedKey, PinnedKey, RefusedItem, Inv;
    var items := [LaterItem(8), LaterItem(9)];
    LaterFacts(po, 8, PutRequest);
    LaterFacts(po, 9, PutRequest);
    LaterAddr(8);
    LaterAddr(9);
    assert First(items, 0) && First(items, 1) && items[0] == LaterItem(8) && items[1] == LaterItem(9);
  }

  lemma TwiceBreaks(db: DB, mode: PutMode, items: seq<Item>, times: seq<Now>, t: int)
    requires Inv(db, t) && |times| == |items| && Ticking(times, t) && CountsReplaced(mode)
    requires ReplacesTwice(db, items) && !RefusedCall(db, items) && !RightByLuck(db, mode, items)
    ensures !Inv(Put(db, mode, items, times), EndTime(times, t))
  {
    hide Inv, Put, RefusedCall, RightByLuck, ReplacesTwice, ReplacesUnpinned, PutAll, Agree, Ticking;
    PutExact(db, mode, items, times, t);
  }

  lemma OneCounted(po: Addr -> nat)
    ensures OneStamped(po).gcSize == 1
  {}

  /** At most two items, each replacing the same collectable chunk: no luck with a counter of one. */
  lemma OnlyLater(db: DB, mode: PutMode, items: seq<Item>)
    requires 1 <= |items| <= 2 && db.gcSize == 1
    requires forall i :: 0 <= i < |items| ==>
               PinnedKey(db, mode, items[i]) == None && ReplacedKey(db, items[i]).Some? && !RefusedItem(db, items[i])
    ensures !RefusedCall(db, items) && !RightByLuck(db, mode, items)
  {
    hide Cached, ReplacedKey, PinnedKey, RefusedItem, CachedCount;
    var ps, rs := PinnedKeys(db, mode, items), ReplacedKeys(db, items);
    NoCount(ps);
    AtMost(rs);
    assert First(items, 0) && rs[0].Some? && rs[0].value in KeySet(rs);
    assert Dropped(db, mode, items) != {};
  }

  lemma {:induction false} NoCount(ks: Keys)
    requires forall i :: 0 <= i < |ks| ==> ks[i].None?
    ensures KeyCount(ks) == 0
  {
    if ks != [] { NoCount(ks[..|ks| - 1]); }
  }

  lemma {:induction false} AtMost(ks: Keys)
    ensures KeyCount(ks) <= |ks|
  {
    if ks != [] { AtMost(ks[..|ks| - 1]); }
  }
}
