/** What a put call leaves in the store: which of its chunks are held, and which earlier ones are not any more. */
module LocalstoreHeld {
  import opened Localstore
  import opened LocalstoreInv
  import opened LocalstoreBatch
  import opened LocalstorePut
  import opened LocalstorePutInv
  import opened LocalstoreReplace

  /** The chunks a call stores, and those it replaces. */
  function Stored(db: DB, items: seq<Item>): set<Addr> {
    if items == [] then {}
    else
      var n := |items| - 1;
      Stored(db, items[..n]) + if First(items, n) && IsNew(db, items[n]) then {items[n].addr} else {}
  }

  function Lost(db: DB, items: seq<Item>): set<Addr> {
    if items == [] then {}
    else
      var n := |items| - 1;
      Lost(db, items[..n]) + if First(items, n) then Replaces(db, items[n]) else {}
  }

  function Replaces(db: DB, item: Item): set<Addr> {
    if ReplacedBy(db, item).Some? then {ReplacedBy(db, item).value} else {}
  }

  /** The chunks of the batch after one item. */
  lemma ItemData(db: DB, b: DB, ids: map<nat, nat>, item: Item, mode: PutMode, now: Now)
    ensures var s := PutIn(db, b, ids, item, mode, now);
      s.PutOk? ==>
        && s.b.core.data.Keys ==
             b.core.data.Keys - Replaces(db, item) + (if IsNew(db, item) then {item.addr} else {})
        && Replaces(db, item) <= db.core.data.Keys
  {
    hide PutIn, StoreIn, NotStoredIn, CollisionIn, RemoveIn;
    if !IsNew(db, item) {
      PutSkips(db, b, ids, item, mode, now);
      NotStoredData(db, b, ids, item, mode);
    } else if NoReplacement(db, item) {
      PutStores(db, b, ids, item, mode, now);
      StoredData(db, b, ids, item, mode, 0, now);
    } else {
      PutReplaces(db, b, ids, item, mode, now);
      RemovedData(db.core, b.core, ReplacedBy(db, item).value);
      var col := CollisionIn(db, b, item);
      if col.Replaced? { StoredData(db, col.b, ids, item, mode, col.change, now); }
    }
  }

  lemma NotStoredData(db: DB, b: DB, ids: map<nat, nat>, item: Item, mode: PutMode)
    ensures forall existed :: var s := NotStoredIn(db, b, ids, item, mode, existed);
              s.PutOk? ==> s.b.core.data == b.core.data
  {}

  lemma StoredData(db: DB, b: DB, ids: map<nat, nat>, item: Item, mode: PutMode, change: int, now: Now)
    ensures var s := StoreIn(db, b, ids, item, mode, change, now);
      s.PutOk? ==> s.b.core.data.Keys == b.core.data.Keys + {item.addr}
  {
    var a, bin := item.addr, db.po(item.addr);
    var d := Data(now.store, NextBinID(db, ids, bin), item.batch, item.index, item.stampTs);
    hide NextBinID, NewIn;
    NewData(db.core, b.core, a, d, now.access, bin >= item.radius, mode);
  }

  lemma NewData(db: Core, b: Core, a: Addr, d: Data, access: int, within: bool, mode: PutMode)
    ensures var s := NewIn(db, b, a, d, access, within, mode); s.Ok? ==> s.b.data.Keys == b.data.Keys + {a}
  {}

  lemma RemovedData(db: Core, b: Core, a: Addr)
    ensures var s := RemoveIn(db, b, a);
      (s.Ok? <==> a in db.data) && (s.Ok? ==> s.b.data.Keys == b.data.Keys - {a})
  {}

  lemma {:induction false} NewOnes(db: DB, items: seq<Item>)
    ensures Stored(db, items) !! db.core.data.Keys
  {
    if items != [] { NewOnes(db, items[..|items| - 1]); }
  }

  /** After a call that succeeds the store holds what it held, without the replaced chunks, and the stored ones. */
  lemma {:induction false} HeldAfter(db: DB, mode: PutMode, items: seq<Item>, times: seq<Now>)
    requires |times| == |items|
    ensures var r := PutAll(db, mode, items, times);
      r.PutOk? ==> r.b.core.data.Keys == db.core.data.Keys - Lost(db, items) + Stored(db, items)
    decreases |items|
  {
    hide PutIn, First, IsNew, Replaces;
    if items != [] {
      var n := |items| - 1;
      HeldAfter(db, mode, items[..n], times[..n]);
      PutNext(db, mode, items, times);
      NewOnes(db, items[..n]);
      var r := PutAll(db, mode, items[..n], times[..n]);
      hide PutAll;
      if r.PutOk? && First(items, n) && PutIn(db, r.b, r.ids, items[n], mode, times[n]).PutOk? {
        ItemData(db, r.b, r.ids, items[n], mode, times[n]);
        Swapped(db.core.data.Keys, Lost(db, items[..n]), Stored(db, items[..n]), Replaces(db, items[n]),
                if IsNew(db, items[n]) then {items[n].addr} else {});
      }
    }
  }

  lemma Swapped(held: set<Addr>, lost: set<Addr>, stored: set<Addr>, out: set<Addr>, added: set<Addr>)
    requires stored !! held && out <= held
    ensures held - lost + stored - out + added == held - (lost + out) + (stored + added)
  {}

  /** The stamp of a new chunk lets it in: its index is free, or taken by an older stamp whose chunk is there. */
  predicate Takes(db: DB, item: Item) { IsNew(db, item) && !RefusedItem(db, item) }

  /**
  Chunks the store misses, each given once: all of them are held after the call if and only if every stamp lets its
  chunk in.  A chunk whose index is held by an equal or later stamp is left out without an error.
  */
  lemma MissingHeld(db: DB, mode: PutMode, items: seq<Item>, times: seq<Now>, t: int)
    requires Agree(db.core, t) && |times| == |items|
    requires forall i :: 0 <= i < |items| ==> items[i].addr !in db.core.data
    requires forall i, j :: 0 <= i < j < |items| ==> items[i].addr != items[j].addr
    ensures (forall i :: 0 <= i < |items| ==> items[i].addr in Put(db, mode, items, times).core.data) <==>
              forall i :: 0 <= i < |items| ==> Takes(db, items[i])
  {
    hide PutAll, IsNew, RefusedItem, AgreeAt;
    CallFails(db, mode, items, times, t);
    assert forall i :: 0 <= i < |items| ==> First(items, i);
    HeldAfter(db, mode, items, times);
    forall i | 0 <= i < |items| ensures items[i].addr in Stored(db, items) <==> IsNew(db, items[i]) {
      StoredOnce(db, items, i);
    }
  }

  lemma {:induction false} StoredOnce(db: DB, items: seq<Item>, i: nat)
    requires i < |items| && forall i, j :: 0 <= i < j < |items| ==> items[i].addr != items[j].addr
    ensures items[i].addr in Stored(db, items) <==> IsNew(db, items[i])
    decreases |items|
  {
    hide IsNew;
    var n := |items| - 1;
    assert First(items, n);
    hide First;
    if i < n {
      StoredOnce(db, items[..n], i);
    } else {
      OnlyThese(db, items[..n], items[n].addr);
    }
  }

  lemma {:induction false} OnlyThese(db: DB, items: seq<Item>, a: Addr)
    requires forall i :: 0 <= i < |items| ==> items[i].addr != a
    ensures a !in Stored(db, items)
  {
    hide IsNew, First;
    if items != [] { OnlyThese(db, items[..|items| - 1], a); }
  }

  /** A chunk with the stamp index of chunk 7, not later: the call succeeds and the chunk is not held. */
  lemma DeclinedSilently(po: Addr -> nat, mode: PutMode)
    ensures var db, item := OneStamped(po), Item(8, 1, 1, 1, 0, false);
      PutAll(db, mode, [item], [Now(3, 4)]).PutOk? && 8 !in Put(db, mode, [item], [Now(3, 4)]).core.data
  {
    var db, item := OneStamped(po), Item(8, 1, 1, 1, 0, false);
    assert !IsNew(db, item) && !RefusedItem(db, item) && 8 !in db.core.data;
    assert First([item], 0) && [item][0] == item && [item][..0] == [];
    LaterFacts(po, 8, mode);
    hide OneStamped, IsNew, RefusedItem, PutAll, Inv;
    HeldAfter(db, mode, [item], [Now(3, 4)]);
    CallFails(db, mode, [item], [Now(3, 4)], 2) by { InvAgrees(db, 2); }
  }

  lemma InvAgrees(db: DB, t: int)
    requires Inv(db, t)
    ensures Agree(db.core, t)
  {}
}
