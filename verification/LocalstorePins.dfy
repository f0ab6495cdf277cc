/** What a set call does to each chunk it is given, and the pin counter over many calls. */
module LocalstorePins {
  import opened Localstore
  import opened LocalstoreInv
  import opened LocalstoreBatch
  import opened LocalstoreRepeat

  /** How often a chunk is pinned. */
  function Pins(c: Core, a: Addr): nat { if a in c.pin then c.pin[a] else 0 }

  /** The chunk waits to be push-synced. */
  predicate Waits(c: Core, a: Addr) { a in c.data && PushKey(c.data[a].storeTs, a) in c.push }

  ghost predicate NotInGc(c: Core, a: Addr) { forall k: GcKey :: k in c.gc ==> k.addr != a }

  ghost predicate SameData(c: Core, d: Core, a: Addr) {
    (a in d.data <==> a in c.data) && (a in c.data ==> d.data[a] == c.data[a])
  }

  ghost predicate SamePush(c: Core, d: Core, a: Addr) {
    forall k: PushKey :: k.addr == a ==> (k in d.push <==> k in c.push)
  }

  /** The access time stays, or is one from the call where there was none. */
  ghost predicate Accessed(c: Core, d: Core, a: Addr, t: int, t': int) {
    a in d.access && if a in c.access then d.access[a] == c.access[a] else t < d.access[a] <= t'
  }

  /** What is recorded about chunk a before (c) and after (d) a call between t and t' that was given a. */
  ghost predicate Done(c: Core, d: Core, mode: SetMode, a: Addr, t: int, t': int) {
    match mode
    case SetPin =>
      && a in d.pin && d.pin[a] == Pins(c, a) + 1 && NotInGc(d, a)
      && SameData(c, d, a) && SamePush(c, d, a) && (a in d.access <==> a in c.access)
      && (a in c.access ==> d.access[a] == c.access[a])
    case SetUnpin =>
      && SameData(c, d, a) && SamePush(c, d, a)
      && (Pins(c, a) > 1 ==> a in d.pin && d.pin[a] == Pins(c, a) - 1 && NotInGc(d, a))
      && (Pins(c, a) <= 1 ==> a !in d.pin)
      && (a in c.access ==> a in d.access && d.access[a] == c.access[a])
      && ((Pins(c, a) > 1 || Waits(c, a)) && a in d.access ==> a in c.access)
      && (Pins(c, a) <= 1 && Waits(c, a) ==> NotInGc(d, a))
      && (Pins(c, a) <= 1 && !Waits(c, a) ==> Collectable(d, a) && Accessed(c, d, a, t, t'))
    case SetSync =>
      && SameData(c, d, a)
      && (a in c.data ==>
            && a in d.pin && d.pin[a] == Pins(c, a) + 1 && NotInGc(d, a) && Accessed(c, d, a, t, t') && !Waits(d, a))
      && (a !in c.data ==> Pins(d, a) == Pins(c, a) && PushKey(0, a) !in d.push)
    case SetRemove => a !in d.data && a !in d.access && a !in d.pin && NotInGc(d, a) && SamePush(c, d, a)
  }

  lemma StepDone(c: Core, mode: SetMode, a: Addr, now: Now, t: int)
    requires AgreeAt(c, t, a) && t < now.access && SetIn(c, c, mode, a, now).Ok?
    ensures Done(c, SetIn(c, c, mode, a, now).b, mode, a, t, now.access)
  {}

  lemma SameDone(c: Core, d: Core, e: Core, mode: SetMode, a: Addr, t: int, t1: int, t2: int)
    requires Done(c, d, mode, a, t, t1) && SameAt(d, e, a) && t1 <= t2
    ensures Done(c, e, mode, a, t, t2)
  {}

  /**
  A call that is not refused and moves no chunk twice has done to each chunk it was given, however often, what its mode
  says, once.
  */
  lemma SetEffects(db: DB, mode: SetMode, addrs: seq<Addr>, times: seq<Now>, t: int, a: Addr)
    requires Inv(db, t) && |times| == |addrs| && Ticking(times, t) && a in addrs && !MovesTwice(db.core, mode, addrs)
    requires forall i :: 0 <= i < |addrs| ==> !Refused(db.core, mode, addrs[i])
    ensures Done(db.core, Set(db, mode, addrs, times).core, mode, a, t, EndTime(times, t))
  {
    hide AgreeAt, SetAll, SetIn, SameAt, Moves, Refused, Done;
    var c := db.core;
    CallKeys(c, mode, addrs, times, t);
    CallPointwise(c, mode, addrs, times, t);
    var b := SetAll(c, mode, addrs, times).b;
    assert DoneAt(c, b, mode, a, t, EndTime(times, t));
    var now: Now :| t < now.access <= EndTime(times, t) && SetIn(c, c, mode, a, now).Ok?
                    && SameAt(SetIn(c, c, mode, a, now).b, b, a);
    assert AgreeAt(c, t, a);
    StepDone(c, mode, a, now, t);
    SameDone(c, SetIn(c, c, mode, a, now).b, b, mode, a, t, now.access, EndTime(times, t));
  }

  // ---------------------------------------------------------------- pinning again and again

  /** A call with one address. */
  function Once(db: DB, mode: SetMode, a: Addr, now: Now): DB { Set(db, mode, [a], [now]) }

  lemma OnceDone(db: DB, mode: SetMode, a: Addr, now: Now, t: int)
    requires Inv(db, t) && t < now.store < now.access && !Refused(db.core, mode, a)
    ensures Inv(Once(db, mode, a, now), now.access)
    ensures Done(db.core, Once(db, mode, a, now).core, mode, a, t, now.access)
    ensures forall x :: x != a ==> SameAt(db.core, Once(db, mode, a, now).core, x)
  {
    hide Inv, SetAll, SameAt, Moves, Refused, Done, Set;
    assert !MovesTwice(db.core, mode, [a]);
    SetExact(db, mode, [a], [now], t);
    SetEffects(db, mode, [a], [now], t, a);
    forall x | x != a ensures SameAt(db.core, Once(db, mode, a, now).core, x) {
      SetElsewhere(db, mode, [a], [now], x);
    }
  }

  /** One SetPin or SetUnpin call after the other. */
  function Calls(db: DB, mode: SetMode, a: Addr, times: seq<Now>): DB {
    if times == [] then db else Once(Calls(db, mode, a, times[..|times| - 1]), mode, a, times[|times| - 1])
  }

  /** The pins of a are n and those of other chunks are as they were; the chunk is stored as it was. */
  ghost predicate Pinned(c: Core, d: Core, a: Addr, n: nat) {
    && d.pin == (if n == 0 then c.pin - {a} else c.pin[a := n])
    && SameData(c, d, a) && SamePush(c, d, a)
    && (a in c.access ==> a in d.access && d.access[a] == c.access[a])
    && (n > 0 ==> NotInGc(d, a))
  }

  lemma PinOnce(c: Core, d: Core, e: Core, a: Addr, n: nat, t: int, t': int)
    requires Pinned(c, d, a, n) && (n == 0 ==> a !in c.pin) && Done(d, e, SetPin, a, t, t')
    requires forall x :: x != a ==> SameAt(d, e, x)
    ensures Pinned(c, e, a, n + 1)
  {
    PinElsewhere(d, e, a);
  }

  lemma UnpinOnce(c: Core, d: Core, e: Core, a: Addr, n: nat, t: int, t': int)
    requires Pinned(c, d, a, n) && n > 0 && Done(d, e, SetUnpin, a, t, t')
    requires forall x :: x != a ==> SameAt(d, e, x)
    ensures Pinned(c, e, a, n - 1)
  {
    PinElsewhere(d, e, a);
    assert n == 1 ==> e.pin == d.pin - {a};
    assert n > 1 ==> e.pin == d.pin[a := n - 1];
  }

  lemma PinElsewhere(d: Core, e: Core, a: Addr)
    requires forall x :: x != a ==> SameAt(d, e, x)
    ensures forall x :: x != a ==> (x in e.pin <==> x in d.pin) && (x in d.pin ==> e.pin[x] == d.pin[x])
  {
    forall x | x != a ensures (x in e.pin <==> x in d.pin) && (x in d.pin ==> e.pin[x] == d.pin[x]) {
      assert SameAt(d, e, x);
    }
  }

  /** n pins of a stored chunk count n. */
  lemma {:induction false} PinsCount(db: DB, a: Addr, times: seq<Now>, t: int)
    requires Inv(db, t) && Ticking(times, t) && a in db.core.data && times != []
    ensures Inv(Calls(db, SetPin, a, times), EndTime(times, t))
    ensures Pinned(db.core, Calls(db, SetPin, a, times).core, a, Pins(db.core, a) + |times|)
  {
    hide Inv, SameAt, Done, Pinned, Once;
    var n := |times| - 1;
    LastTick(times, t, n);
    var before := Calls(db, SetPin, a, times[..n]);
    if n == 0 {
      OnceDone(db, SetPin, a, times[0], t);
      FirstPin(db.core, Calls(db, SetPin, a, times).core, a, t, times[0].access);
    } else {
      PinsCount(db, a, times[..n], t);
      OnceDone(before, SetPin, a, times[n], EndTime(times[..n], t));
      PinOnce(db.core, before.core, Calls(db, SetPin, a, times).core, a, Pins(db.core, a) + n,
              EndTime(times[..n], t), times[n].access);
    }
  }

  lemma FirstPin(c: Core, e: Core, a: Addr, t: int, t': int)
    requires Done(c, e, SetPin, a, t, t') && forall x :: x != a ==> SameAt(c, e, x)
    ensures Pinned(c, e, a, Pins(c, a) + 1)
  {
    PinElsewhere(c, e, a);
  }

  /** Unpinning takes one pin each, and the last one makes the chunk collectable unless it waits to be synced. */
  lemma {:induction false} UnpinsCount(c: Core, db: DB, a: Addr, n: nat, times: seq<Now>, t: int)
    requires Inv(db, t) && Ticking(times, t) && a in c.data && Pinned(c, db.core, a, n) && |times| <= n
    ensures Inv(Calls(db, SetUnpin, a, times), EndTime(times, t))
    ensures Pinned(c, Calls(db, SetUnpin, a, times).core, a, n - |times|)
    ensures 0 < |times| == n && !Waits(c, a) ==> Collectable(Calls(db, SetUnpin, a, times).core, a)
    decreases |times|
  {
    hide Inv, SameAt, Done, Pinned, Once;
    if times != [] {
      var k := |times| - 1;
      LastTick(times, t, k);
      UnpinsCount(c, db, a, n, times[..k], t);
      var before := Calls(db, SetUnpin, a, times[..k]);
      var left := n - k;
      StillPinned(c, before.core, a, left);
      OnceDone(before, SetUnpin, a, times[k], EndTime(times[..k], t));
      UnpinOnce(c, before.core, Calls(db, SetUnpin, a, times).core, a, left, EndTime(times[..k], t), times[k].access);
      if left == 1 && !Waits(c, a) {
        Freed(before.core, Calls(db, SetUnpin, a, times).core, a, EndTime(times[..k], t), times[k].access);
      }
    }
  }

  lemma StillPinned(c: Core, d: Core, a: Addr, n: nat)
    requires Pinned(c, d, a, n) && n > 0 && a in c.data
    ensures Pins(d, a) == n && !Refused(d, SetUnpin, a) && (Waits(d, a) <==> Waits(c, a))
  {}

  lemma Freed(d: Core, e: Core, a: Addr, t: int, t': int)
    requires Done(d, e, SetUnpin, a, t, t') && Pins(d, a) == 1 && !Waits(d, a)
    ensures Collectable(e, a)
  {}

  /**
  A stored chunk that is pinned n times and unpinned m times, in calls of their own: while m < n it stays pinned and out
  of the gc index, with n - m more pins than before; after as many unpins as pins the pins are what they were, and a
  chunk that was not pinned and does not wait to be synced is collectable.
  */
  lemma PinUnpin(db: DB, a: Addr, pins: seq<Now>, unpins: seq<Now>, t: int)
    requires Inv(db, t) && a in db.core.data && pins != [] && |unpins| <= |pins|
    requires Ticking(pins, t) && Ticking(unpins, EndTime(pins, t)) && (a in db.core.pin ==> db.core.pin[a] > 0)
    ensures var after := Calls(Calls(db, SetPin, a, pins), SetUnpin, a, unpins);
      && Inv(after, EndTime(unpins, EndTime(pins, t)))
      && Pins(after.core, a) == Pins(db.core, a) + |pins| - |unpins|
      && (Pins(after.core, a) > 0 ==> a in after.core.pin && NotInGc(after.core, a))
      && (|unpins| == |pins| ==> after.core.pin == db.core.pin)
      && (|unpins| == |pins| && Pins(db.core, a) == 0 && !Waits(db.core, a) ==> Collectable(after.core, a))
  {
    hide Inv, Calls, Waits, Collectable;
    PinsCount(db, a, pins, t);
    UnpinsCount(db.core, Calls(db, SetPin, a, pins), a, Pins(db.core, a) + |pins|, unpins, EndTime(pins, t));
    hide SameData, SamePush, NotInGc;
  }
}
