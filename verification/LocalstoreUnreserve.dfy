/** UnreserveBatch: which chunks it unpins, and what it records. */
module LocalstoreUnreserve {
  import opened Common
  import opened Localstore
  import opened LocalstoreInv
  import opened LocalstoreBatch
  import opened LocalstoreRepeat
  import opened LocalstoreMore
  import opened LocalstorePins
  import opened LocalstoreStamps
  import opened LocalstoreListed
  import opened LocalstoreFiled

  /** A pinned chunk loses one pin, and any other is left alone. */
  ghost predicate UnpinnedOnce(c: Core, d: Core, a: Addr, t: int, t': int) {
    if a in c.pin then Done(c, d, SetUnpin, a, t, t') else SameAt(c, d, a)
  }

  // ---------------------------------------------------------------- one bin

  lemma SkipsUnpinned(db: Core, b: Core, a: Addr, now: Now)
    requires a !in db.pin
    ensures UnpinIn(db, b, a, now).b == b
  {}

  lemma {:induction false} UnpinAllAt(db: Core, addrs: seq<Addr>, times: seq<Now>, t: int, a: Addr)
    requires |times| == |addrs| && Distinct(addrs) && Ticking(times, t)
    requires AgreeAt(db, t, a) && (a in addrs ==> a in db.data)
    ensures var b := UnpinAll(db, addrs, times).0;
      if a in addrs then UnpinnedOnce(db, b, a, t, EndTime(times, t)) else SameAt(db, b, a)
    decreases |addrs|
  {
    hide AgreeAt, UnpinIn, SameAt, Done;
    if addrs == [] {
      SameEverywhere(db);
    } else {
      var n := |addrs| - 1;
      LastTick(times, t, n);
      var b := UnpinAll(db, addrs[..n], times[..n]).0;
      var e := UnpinIn(db, b, addrs[n], times[n]).b;
      if a == addrs[n] {
        assert a !in addrs[..n];
        UnpinAllAt(db, addrs[..n], times[..n], t, a);
        UnpinsHere(db, b, a, times[n], t);
      } else {
        assert a in addrs <==> a in addrs[..n];
        UnpinAllAt(db, addrs[..n], times[..n], t, a);
        StepOnlyAt(db, b, SetUnpin, addrs[n], times[n]);
        UnpinsElsewhere(db, b, e, a, addrs[n], a in addrs, t, EndTime(times[..n], t), times[n].access);
      }
    }
  }

  lemma UnpinsHere(db: Core, b: Core, a: Addr, now: Now, t: int)
    requires SameAt(db, b, a) && AgreeAt(db, t, a) && t < now.access && a in db.data
    ensures UnpinnedOnce(db, UnpinIn(db, b, a, now).b, a, t, now.access)
  {
    if a in db.pin {
      assert SetIn(db, db, SetUnpin, a, now).Ok?;
      hide SameAt, AgreeAt, UnpinIn, Done;
      StepDone(db, SetUnpin, a, now, t);
      UnpinInSame(db, db, b, a, now);
      SameDone(db, UnpinIn(db, db, a, now).b, UnpinIn(db, b, a, now).b, SetUnpin, a, t, now.access, now.access);
    } else {
      SkipsUnpinned(db, b, a, now);
    }
  }

  lemma UnpinsElsewhere(db: Core, b: Core, e: Core, a: Addr, other: Addr, done: bool, t: int, t1: int, t2: int)
    requires OnlyAt(b, e, other) && a != other && t1 <= t2
    requires if done then UnpinnedOnce(db, b, a, t, t1) else SameAt(db, b, a)
    ensures if done then UnpinnedOnce(db, e, a, t, t2) else SameAt(db, e, a)
  {
    assert SameAt(b, e, a);
    hide SameAt, Done, OnlyAt;
    LaterUnpinned(db, b, e, a, done, t, t1, t2);
  }

  lemma LaterUnpinned(db: Core, b: Core, e: Core, a: Addr, done: bool, t: int, t1: int, t2: int)
    requires SameAt(b, e, a) && t1 <= t2
    requires if done then UnpinnedOnce(db, b, a, t, t1) else SameAt(db, b, a)
    ensures if done then UnpinnedOnce(db, e, a, t, t2) else SameAt(db, e, a)
  {
    hide SameAt, Done;
    if done && a in db.pin {
      SameDone(db, b, e, SetUnpin, a, t, t1, t2);
    } else {
      SameTrans(db, b, e, a);
    }
  }

  /** The chunk was untouched before the round. */
  lemma EarlierUnpinned(c: Core, d: Core, e: Core, a: Addr, t0: int, t: int, t': int)
    requires SameAt(c, d, a) && UnpinnedOnce(d, e, a, t, t') && t0 <= t
    ensures UnpinnedOnce(c, e, a, t0, t')
  {
    assert a in c.pin <==> a in d.pin;
    if a in c.pin {
      DoneBefore(c, d, e, a, t0, t, t');
    } else {
      hide SameAt, Done;
      assert SameAt(c, d, a) && SameAt(d, e, a);
      SameTrans(c, d, e, a);
    }
  }

  lemma DoneBefore(c: Core, d: Core, e: Core, a: Addr, t0: int, t: int, t': int)
    requires SameAt(c, d, a) && Done(d, e, SetUnpin, a, t, t') && t0 <= t
    ensures Done(c, e, SetUnpin, a, t0, t')
  {}

  // ---------------------------------------------------------------- all bins

  predicate TickingAll(times: seq<seq<Now>>, t: int) {
    times == [] || (TickingAll(times[..|times| - 1], t) && Ticking(times[|times| - 1], EndAll(times[..|times| - 1], t)))
  }

  function EndAll(times: seq<seq<Now>>, t: int): int {
    if times == [] then t else EndTime(times[|times| - 1], EndAll(times[..|times| - 1], t))
  }

  /** Each round sees the chunk entries of the batch in its bin, each once. */
  ghost predicate Scanned(db: DB, id: BatchID, from: nat, scans: seq<seq<Addr>>) {
    forall i :: 0 <= i < |scans| ==>
      Distinct(scans[i]) && forall a :: a in scans[i] <==> ChunkKey(id, from + i, a) in db.postageChunks
  }

  /** A stored chunk of the batch in one of the bins. */
  predicate InBins(db: DB, id: BatchID, from: nat, to: nat, a: Addr) {
    a in db.core.data && db.core.data[a].batch == id && from <= db.po(a) < to
  }

  lemma ScannedAre(db: DB, id: BatchID, from: nat, scans: seq<seq<Addr>>, i: nat, a: Addr)
    requires Filed(db) && Scanned(db, id, from, scans) && i < |scans|
    ensures a in scans[i] <==> InBins(db, id, from + i, from + i + 1, a)
  {
    assert a in scans[i] <==> ChunkKey(id, from + i, a) in db.postageChunks;
    if a in db.core.data { assert ChunkKeyOf(db, a) in db.postageChunks; }
  }

  /** Nothing but the core indexes, gcSize and the radius of the batch changes, and no data. */
  ghost predicate OnlyUnpins(db: DB, d: DB, id: BatchID) {
    && d.po == db.po && d.core.data == db.core.data && d.pull == db.pull && d.postageChunks == db.postageChunks
    && d.postageIndex == db.postageIndex && d.binIDs == db.binIDs && d.postageRadius - {id} == db.postageRadius - {id}
  }

  lemma BinOnlyUnpins(db: DB, id: BatchID, bin: nat, addrs: seq<Addr>, times: seq<Now>)
    requires |times| == |addrs|
    ensures OnlyUnpins(db, UnreserveBin(db, id, bin, addrs, times), id)
    ensures var radius := UnreserveBin(db, id, bin, addrs, times).postageRadius;
      (bin == MAX_PO ==> id !in radius) && (bin != MAX_PO ==> id in radius && radius[id] == bin)
  {
    UnpinAllData(db.core, addrs, times);
    hide UnpinAll;
  }

  lemma OnlyUnpinsTrans(a: DB, b: DB, c: DB, id: BatchID)
    requires OnlyUnpins(a, b, id) && OnlyUnpins(b, c, id)
    ensures OnlyUnpins(a, c, id)
  {}

  predicate Sizes(scans: seq<seq<Addr>>, times: seq<seq<Now>>) {
    |times| == |scans| && forall i :: 0 <= i < |scans| ==> |times[i]| == |scans[i]|
  }

  lemma {:induction false} RoundsFrame(db: DB, id: BatchID, from: nat, scans: seq<seq<Addr>>, times: seq<seq<Now>>)
    requires Sizes(scans, times)
    ensures var d := UnreserveBins(db, id, from, scans, times).0;
      && OnlyUnpins(db, d, id) && (scans == [] ==> d == db)
      && (|scans| > 0 && from + |scans| == MAX_PO + 1 ==> id !in d.postageRadius)
    decreases |scans|
  {
    hide UnreserveBin;
    if scans != [] {
      var n := |scans| - 1;
      RoundsFrame(db, id, from, scans[..n], times[..n]);
      var d := UnreserveBins(db, id, from, scans[..n], times[..n]).0;
      BinOnlyUnpins(d, id, from + n, scans[n], times[n]);
      OnlyUnpinsTrans(db, d, UnreserveBin(d, id, from + n, scans[n], times[n]), id);
    }
  }

  lemma {:induction false} EndsLater(times: seq<seq<Now>>, t: int)
    requires TickingAll(times, t)
    ensures t <= EndAll(times, t)
  {
    if times != [] { EndsLater(times[..|times| - 1], t); }
  }

  /** What has become of a chunk after some rounds. */
  ghost predicate After(db: DB, d: DB, id: BatchID, from: nat, to: nat, a: Addr, t: int, t': int) {
    if InBins(db, id, from, to, a) then UnpinnedOnce(db.core, d.core, a, t, t') else SameAt(db.core, d.core, a)
  }

  lemma RoundAt(db: DB, d: DB, id: BatchID, from: nat, scans: seq<seq<Addr>>, n: nat, now: seq<Now>, a: Addr, t: int,
                t1: int)
    requires Filed(db) && Scanned(db, id, from, scans) && n < |scans| && |now| == |scans[n]| && t <= t1
    requires Inv(d, t1) && Ticking(now, t1) && d.core.data == db.core.data
    requires After(db, d, id, from, from + n, a, t, t1)
    ensures After(db, UnreserveBin(d, id, from + n, scans[n], now), id, from, from + n + 1, a, t, EndTime(now, t1))
  {
    ScannedAre(db, id, from, scans, n, a);
    assert Distinct(scans[n]) && AgreeAt(d.core, t1, a);
    hide Scanned, Filed, AgreeAt, SameAt, Done, UnpinnedOnce;
    UnpinAllAt(d.core, scans[n], now, t1, a);
    var e := UnpinAll(d.core, scans[n], now).0;
    if a in scans[n] {
      EarlierUnpinned(db.core, d.core, e, a, t, t1, EndTime(now, t1));
    } else {
      LaterUnpinned(db.core, d.core, e, a, InBins(db, id, from, from + n, a), t, t1, EndTime(now, t1));
    }
  }

  lemma {:induction false} RoundsAt(db: DB, id: BatchID, from: nat, scans: seq<seq<Addr>>, times: seq<seq<Now>>,
                                    a: Addr, t: int)
    requires Inv(db, t) && Filed(db) && Sizes(scans, times) && Scanned(db, id, from, scans) && TickingAll(times, t)
    ensures var d := UnreserveBins(db, id, from, scans, times).0;
      Inv(d, EndAll(times, t)) && After(db, d, id, from, from + |scans|, a, t, EndAll(times, t))
    decreases |scans|
  {
    hide UnreserveBin, Inv, Filed, After;
    if scans == [] {
      NoRounds(db, id, from, a, t);
    } else {
      var n := |scans| - 1;
      RoundsAt(db, id, from, scans[..n], times[..n], a, t);
      RoundsFrame(db, id, from, scans[..n], times[..n]);
      EndsLater(times[..n], t);
      var d := UnreserveBins(db, id, from, scans[..n], times[..n]).0;
      var t1 := EndAll(times[..n], t);
      assert Distinct(scans[n]);
      UnreserveInv(d, id, from + n, scans[n], times[n], t1);
      RoundAt(db, d, id, from, scans, n, times[n], a, t, t1);
    }
  }

  lemma NoRounds(db: DB, id: BatchID, from: nat, a: Addr, t: int)
    ensures After(db, db, id, from, from, a, t, t)
  {
    SameEverywhere(db.core);
  }

  // ---------------------------------------------------------------- how many are evicted

  /** The pinned chunks of the batch in the bins. */
  function PinnedIn(db: DB, id: BatchID, from: nat, to: nat): set<Addr> {
    set a | a in db.core.data && InBins(db, id, from, to, a) && a in db.core.pin
  }

  function PinnedOf(c: Core, addrs: seq<Addr>): set<Addr> { set a | a in addrs && a in c.pin }

  lemma PinnedNext(c: Core, addrs: seq<Addr>)
    requires addrs != [] && Distinct(addrs)
    ensures var n := |addrs| - 1;
      && PinnedOf(c, addrs) == PinnedOf(c, addrs[..n]) + (if addrs[n] in c.pin then {addrs[n]} else {})
      && addrs[n] !in PinnedOf(c, addrs[..n])
  {
    var n := |addrs| - 1;
    assert addrs == addrs[..n] + [addrs[n]];
  }

  lemma OneMore(before: set<Addr>, now: set<Addr>, a: Addr, pinned: bool)
    requires a !in before && now == before + (if pinned then {a} else {})
    ensures |now| == |before| + if pinned then 1 else 0
  {}

  lemma UnpinWorks(c: Core, a: Addr, now: Now)
    requires a in c.data
    ensures UnpinIn(c, c, a, now).Ok? <==> a in c.pin
  {}

  lemma {:induction false} EvictsPinned(c: Core, addrs: seq<Addr>)
    requires Distinct(addrs) && forall a :: a in addrs ==> a in c.data
    ensures Evicts(c, addrs) == |PinnedOf(c, addrs)|
  {
    hide UnpinIn;
    if addrs != [] {
      var n := |addrs| - 1;
      EvictsPinned(c, addrs[..n]);
      PinnedNext(c, addrs);
      UnpinWorks(c, addrs[n], Now(0, 0));
      hide PinnedOf;
      OneMore(PinnedOf(c, addrs[..n]), PinnedOf(c, addrs), addrs[n], addrs[n] in c.pin);
    }
  }

  lemma RoundPinned(db: DB, d: DB, id: BatchID, from: nat, addrs: seq<Addr>, n: nat)
    requires d.core.data == db.core.data
    requires forall a :: a in addrs ==> (a in d.core.pin <==> a in db.core.pin)
    requires forall a :: a in addrs <==> InBins(db, id, from + n, from + n + 1, a)
    ensures PinnedIn(db, id, from, from + n + 1) == PinnedIn(db, id, from, from + n) + PinnedOf(d.core, addrs)
    ensures PinnedIn(db, id, from, from + n) !! PinnedOf(d.core, addrs)
  {
    forall a | a in PinnedIn(db, id, from, from + n + 1)
      ensures a in PinnedIn(db, id, from, from + n) || a in PinnedOf(d.core, addrs)
    {
      assert InBins(db, id, from, from + n, a) || InBins(db, id, from + n, from + n + 1, a);
    }
  }

  lemma RoundEvicts(db: DB, d: DB, id: BatchID, from: nat, scans: seq<seq<Addr>>, n: nat)
    requires Filed(db) && Scanned(db, id, from, scans) && n < |scans| && d.core.data == db.core.data
    requires forall a :: a in scans[n] ==> (a in d.core.pin <==> a in db.core.pin)
    ensures |PinnedIn(db, id, from, from + n)| + Evicts(d.core, scans[n]) == |PinnedIn(db, id, from, from + n + 1)|
  {
    assert Distinct(scans[n]);
    hide Evicts, PinnedIn, PinnedOf;
    forall a ensures a in scans[n] <==> InBins(db, id, from + n, from + n + 1, a) {
      ScannedAre(db, id, from, scans, n, a);
    }
    hide Scanned, Filed;
    EvictsPinned(d.core, scans[n]);
    RoundPinned(db, d, id, from, scans[n], n);
    DisjointSizes(PinnedIn(db, id, from, from + n), PinnedOf(d.core, scans[n]));
  }

  lemma DisjointSizes(a: set<Addr>, b: set<Addr>)
    requires a !! b
    ensures |a + b| == |a| + |b|
  {}

  lemma {:induction false} RoundsEvict(db: DB, id: BatchID, from: nat, scans: seq<seq<Addr>>, times: seq<seq<Now>>,
                                       t: int)
    requires Inv(db, t) && Filed(db) && Sizes(scans, times) && Scanned(db, id, from, scans) && TickingAll(times, t)
    ensures UnreserveBins(db, id, from, scans, times).1 == |PinnedIn(db, id, from, from + |scans|)|
    decreases |scans|
  {
    hide UnreserveBin, Inv, Filed, Evicts, PinnedIn;
    if scans == [] {
      assert PinnedIn(db, id, from, from) == {} by { NonePinned(db, id, from); }
    } else {
      var n := |scans| - 1;
      RoundsEvict(db, id, from, scans[..n], times[..n], t);
      RoundsFrame(db, id, from, scans[..n], times[..n]);
      var d := UnreserveBins(db, id, from, scans[..n], times[..n]).0;
      forall a | a in scans[n] ensures a in d.core.pin <==> a in db.core.pin {
        RoundsAt(db, id, from, scans[..n], times[..n], a, t);
        ScannedAre(db, id, from, scans, n, a);
      }
      hide Scanned;
      RoundEvicts(db, d, id, from, scans, n);
    }
  }

  lemma NonePinned(db: DB, id: BatchID, from: nat)
    ensures PinnedIn(db, id, from, from) == {}
  {}

  // ---------------------------------------------------------------- the whole call

  /** The scans are those of the bins from the recorded radius up to the new one. */
  ghost predicate Rounds(db: DB, id: BatchID, radius: nat, scans: seq<seq<Addr>>) {
    var from := OldRadius(db, id, radius);
    |scans| == (if from < radius then radius - from else 0) && Scanned(db, id, from, scans)
  }

  lemma RadiusAfter(db: DB, id: BatchID, radius: nat, scans: seq<seq<Addr>>, times: seq<seq<Now>>)
    requires Sizes(scans, times) && Rounds(db, id, radius, scans)
    ensures var d := Unreserve(db, id, radius, scans, times).0;
      && OnlyUnpins(db, d, id)
      && (radius <= MAX_PO || radius > MAX_PO + 1 ==> id in d.postageRadius && d.postageRadius[id] == radius)
      && (radius == MAX_PO + 1 ==>
            if id in db.postageRadius && db.postageRadius[id] < radius then id !in d.postageRadius
            else d.postageRadius == db.postageRadius)
  {
    hide UnreserveBins, Scanned;
    RoundsFrame(db, id, OldRadius(db, id, radius), scans, times);
  }

  lemma UnreserveEvicts(db: DB, id: BatchID, radius: nat, scans: seq<seq<Addr>>, times: seq<seq<Now>>, t: int)
    requires Inv(db, t) && Filed(db) && Sizes(scans, times) && Rounds(db, id, radius, scans) && TickingAll(times, t)
    ensures Unreserve(db, id, radius, scans, times).1 == |PinnedIn(db, id, OldRadius(db, id, radius), radius)|
  {
    hide UnreserveBins, Scanned, Filed, Unreserve, PinnedIn, Inv, OldRadius, TickingAll;
    var from := OldRadius(db, id, radius);
    RoundsEvict(db, id, from, scans, times, t);
    SamePinned(db, id, from, radius, from + |scans|);
    UnreserveIs(db, id, radius, scans, times);
  }

  lemma UnreserveChunks(db: DB, id: BatchID, radius: nat, scans: seq<seq<Addr>>, times: seq<seq<Now>>, t: int)
    requires Inv(db, t) && Filed(db) && Sizes(scans, times) && Rounds(db, id, radius, scans) && TickingAll(times, t)
    ensures var d := Unreserve(db, id, radius, scans, times).0;
      var from, t' := OldRadius(db, id, radius), EndAll(times, t);
      && Inv(d, t')
      && (forall a :: InBins(db, id, from, radius, a) ==> UnpinnedOnce(db.core, d.core, a, t, t'))
      && (forall a :: !InBins(db, id, from, radius, a) ==> SameAt(db.core, d.core, a))
  {
    hide Filed, Unreserve, Inv, After, OldRadius, EndAll, TickingAll, InBins, SameAt, UnpinnedOnce, Rounds;
    var d, from, t' := Unreserve(db, id, radius, scans, times).0, OldRadius(db, id, radius), EndAll(times, t);
    UnreserveAt(db, id, radius, scans, times, 0, t);
    forall a ensures After(db, d, id, from, radius, a, t, t') { UnreserveAt(db, id, radius, scans, times, a, t); }
    AfterMeans(db, d, id, from, radius, t, t');
  }

  lemma UnreserveAt(db: DB, id: BatchID, radius: nat, scans: seq<seq<Addr>>, times: seq<seq<Now>>, a: Addr, t: int)
    requires Inv(db, t) && Filed(db) && Sizes(scans, times) && Rounds(db, id, radius, scans) && TickingAll(times, t)
    ensures var d := Unreserve(db, id, radius, scans, times).0;
      After(db, d, id, OldRadius(db, id, radius), radius, a, t, EndAll(times, t)) && Inv(d, EndAll(times, t))
  {
    hide UnreserveBins, Scanned, Filed, Unreserve, Inv, After;
    var from, d := OldRadius(db, id, radius), Unreserve(db, id, radius, scans, times).0;
    UnreserveIs(db, id, radius, scans, times);
    RoundsAt(db, id, from, scans, times, a, t);
    AfterSame(db, UnreserveBins(db, id, from, scans, times).0, d, id, from, radius, from + |scans|, a, t,
              EndAll(times, t));
  }

  lemma UnreserveIs(db: DB, id: BatchID, radius: nat, scans: seq<seq<Addr>>, times: seq<seq<Now>>)
    requires Sizes(scans, times)
    ensures var u, v := Unreserve(db, id, radius, scans, times),
                        UnreserveBins(db, id, OldRadius(db, id, radius), scans, times);
      u.1 == v.1 && u.0.core == v.0.core && u.0.gcSize == v.0.gcSize
  {
    hide UnreserveBins;
  }

  lemma AfterSame(db: DB, d: DB, e: DB, id: BatchID, from: nat, radius: nat, to: nat, a: Addr, t: int, t': int)
    requires After(db, d, id, from, to, a, t, t') && e.core == d.core && e.gcSize == d.gcSize && Inv(d, t')
    requires to == if from < radius then radius else from
    ensures After(db, e, id, from, radius, a, t, t') && Inv(e, t')
  {
    hide SameAt, UnpinnedOnce, AgreeAt;
  }

  lemma AfterMeans(db: DB, d: DB, id: BatchID, from: nat, to: nat, t: int, t': int)
    requires forall a :: After(db, d, id, from, to, a, t, t')
    ensures forall a :: InBins(db, id, from, to, a) ==> UnpinnedOnce(db.core, d.core, a, t, t')
    ensures forall a :: !InBins(db, id, from, to, a) ==> SameAt(db.core, d.core, a)
  {
    hide SameAt, UnpinnedOnce, InBins;
    forall a ensures (InBins(db, id, from, to, a) ==> UnpinnedOnce(db.core, d.core, a, t, t'))
                     && (!InBins(db, id, from, to, a) ==> SameAt(db.core, d.core, a))
    {
      assert After(db, d, id, from, to, a, t, t');
    }
  }

  lemma SamePinned(db: DB, id: BatchID, from: nat, radius: nat, to: nat)
    requires to == if from < radius then radius else from
    ensures PinnedIn(db, id, from, to) == PinnedIn(db, id, from, radius)
  {}

  /**
  UnreserveBatch unpins, once, every stored chunk of the batch in the bins from the radius recorded before up to the
  new one, and no other chunk; it reports how many of them were pinned, keeps the indexes in agreement, and records
  the new radius, or none when the batch is given up.
  */
  lemma UnreserveExact(db: DB, id: BatchID, radius: nat, scans: seq<seq<Addr>>, times: seq<seq<Now>>, t: int)
    requires Inv(db, t) && Filed(db) && Sizes(scans, times) && Rounds(db, id, radius, scans) && TickingAll(times, t)
    ensures var (d, evicted) := Unreserve(db, id, radius, scans, times);
      var from, t' := if id in db.postageRadius then db.postageRadius[id] else radius, EndAll(times, t);
      && Inv(d, t') && OnlyUnpins(db, d, id)
      && (forall a :: InBins(db, id, from, radius, a) ==> UnpinnedOnce(db.core, d.core, a, t, t'))
      && (forall a :: !InBins(db, id, from, radius, a) ==> SameAt(db.core, d.core, a))
      && evicted == |PinnedIn(db, id, from, radius)|
  {
    hide Inv, Unreserve, OnlyUnpins, InBins, UnpinnedOnce, SameAt, PinnedIn, Filed, Rounds, TickingAll, EndAll;
    UnreserveEvicts(db, id, radius, scans, times, t);
    UnreserveChunks(db, id, radius, scans, times, t);
    assert OnlyUnpins(db, Unreserve(db, id, radius, scans, times).0, id) by {
      RadiusAfter(db, id, radius, scans, times);
    }
  }
}
