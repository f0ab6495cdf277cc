/** set calls with repeated addresses: exactly when the indexes and gcSize stay right. */
module LocalstoreRepeat {
  import opened Common
  import opened Localstore
  import opened LocalstoreInv
  import opened LocalstoreKeys
  import opened LocalstoreBatch

  predicate Collectable(c: Core, a: Addr) { a in c.data && KeyOf(c, a) in c.gc }

  /** set moves the chunk in or out of the gc index: out for pin, sync and remove, in for unpin. */
  predicate Moves(c: Core, mode: SetMode, a: Addr) {
    if mode == SetUnpin then Uncaches(c, a) else Collectable(c, a)
  }

  /** The gc key that is removed or added. */
  function MoveKey(c: Core, a: Addr, now: Now): GcKey
    requires a in c.data
  {
    GcKey(if a in c.access then c.access[a] else now.access, c.data[a].binID, a)
  }

  /** set refuses the call because of this address. */
  predicate Refused(c: Core, mode: SetMode, a: Addr) {
    match mode
    case SetRemove => a !in c.data
    case SetUnpin => a !in c.pin || (c.pin[a] <= 1 && a !in c.data)
    case _ => false
  }

  /** Some address whose chunk moves is given twice. */
  predicate MovesTwice(c: Core, mode: SetMode, addrs: seq<Addr>) {
    exists i, j :: 0 <= i < j < |addrs| && addrs[i] == addrs[j] && Moves(c, mode, addrs[i])
  }

  /** The key each address moves, if it moves one. */
  function Moved(c: Core, mode: SetMode, addrs: seq<Addr>, times: seq<Now>): (ks: Keys)
    requires |times| == |addrs|
    ensures |ks| == |addrs|
  {
    seq(|addrs|, i requires 0 <= i < |addrs| =>
          if Moves(c, mode, addrs[i]) then Some(MoveKey(c, addrs[i], times[i])) else None)
  }

  /** One address, whatever the batch already holds: reads come from the database only. */
  lemma StepKeys(db: Core, b: Core, mode: SetMode, a: Addr, now: Now, t: int)
    requires AgreeAt(db, t, a)
    ensures var s := SetIn(db, b, mode, a, now);
      (s.Err? <==> Refused(db, mode, a)) && StepMoves(db, b, mode, a, now, s)
  {
  }

  /** A step reports and changes what its address moves. */
  ghost predicate StepMoves(db: Core, b: Core, mode: SetMode, a: Addr, now: Now, s: Step) {
    && (s.Ok? && !Moves(db, mode, a) ==> s.change == 0 && s.b.gc.Keys == b.gc.Keys)
    && (s.Ok? && Moves(db, mode, a) && mode == SetUnpin ==>
          s.change == 1 && s.b.gc.Keys == b.gc.Keys + {MoveKey(db, a, now)})
    && (s.Ok? && Moves(db, mode, a) && mode != SetUnpin ==>
          s.change == -1 && s.b.gc.Keys == b.gc.Keys - {MoveKey(db, a, now)})
  }

  function Signed(mode: SetMode, n: nat): int { if mode == SetUnpin then n else -(n as int) }

  /** A whole call: when it is refused, what it reports, and which keys it leaves. */
  lemma {:induction false} CallKeys(db: Core, mode: SetMode, addrs: seq<Addr>, times: seq<Now>, t: int)
    requires Agree(db, t) && |times| == |addrs|
    ensures var r, ks := SetAll(db, mode, addrs, times), Moved(db, mode, addrs, times);
      && (r.Err? <==> exists i :: 0 <= i < |addrs| && Refused(db, mode, addrs[i]))
      && (r.Ok? ==> KeysAfter(db, r.b, mode, r.change, ks))
    decreases |addrs|
  {
    hide AgreeAt, SetIn, Moves, MoveKey, Refused, KeysAfter;
    if addrs == [] {
      NoKeys(db, mode);
    } else {
      var n := |addrs| - 1;
      CallKeys(db, mode, addrs[..n], times[..n], t);
      var r := SetAll(db, mode, addrs[..n], times[..n]);
      assert AgreeAt(db, t, addrs[n]);
      if r.Ok? {
        StepKeys(db, r.b, mode, addrs[n], times[n], t);
        KeysAfterNext(db, r.b, mode, addrs, times, r.change, SetIn(db, r.b, mode, addrs[n], times[n]));
      }
    }
  }

  /** What a call has reported, and the gc keys it has left, when these were the keys it moved. */
  ghost predicate KeysAfter(db: Core, b: Core, mode: SetMode, change: int, ks: Keys) {
    && change == Signed(mode, KeyCount(ks))
    && b.gc.Keys == if mode == SetUnpin then db.gc.Keys + KeySet(ks) else db.gc.Keys - KeySet(ks)
  }

  lemma NoKeys(db: Core, mode: SetMode)
    ensures KeysAfter(db, db, mode, 0, Moved(db, mode, [], []))
  {
    assert KeySet([]) == {};
  }

  lemma KeysAfterNext(db: Core, b: Core, mode: SetMode, addrs: seq<Addr>, times: seq<Now>, change: int, s: Step)
    requires addrs != [] && |times| == |addrs|
    requires var n := |addrs| - 1; KeysAfter(db, b, mode, change, Moved(db, mode, addrs[..n], times[..n]))
    requires var n := |addrs| - 1; StepMoves(db, b, mode, addrs[n], times[n], s)
    ensures s.Ok? ==> KeysAfter(db, s.b, mode, change + s.change, Moved(db, mode, addrs, times))
  {
    hide Moves, MoveKey;
    var n := |addrs| - 1;
    var ks := Moved(db, mode, addrs, times);
    assert ks[..n] == Moved(db, mode, addrs[..n], times[..n]) && ks[..n + 1] == ks;
    KeySetNext(ks, n);
    hide KeySet, KeyCount;
  }

  lemma MoveKeyInGc(db: Core, mode: SetMode, a: Addr, now: Now, t: int)
    requires AgreeAt(db, t, a) && Moves(db, mode, a)
    ensures MoveKey(db, a, now) in db.gc <==> mode != SetUnpin
  {}

  lemma MovedInGc(db: Core, mode: SetMode, addrs: seq<Addr>, times: seq<Now>, t: int)
    requires Agree(db, t) && |times| == |addrs|
    ensures mode != SetUnpin ==> KeySet(Moved(db, mode, addrs, times)) <= db.gc.Keys
    ensures mode == SetUnpin ==> KeySet(Moved(db, mode, addrs, times)) !! db.gc.Keys
  {
    hide AgreeAt;
    var ks := Moved(db, mode, addrs, times);
    forall i | 0 <= i < |ks| && ks[i].Some? ensures ks[i].value in db.gc <==> mode != SetUnpin {
      assert AgreeAt(db, t, addrs[i]);
      MoveKeyInGc(db, mode, addrs[i], times[i], t);
    }
  }

  /** The count is right exactly when no key moves twice. */
  lemma CallCounts(db: DB, mode: SetMode, addrs: seq<Addr>, times: seq<Now>, t: int)
    requires Inv(db, t) && |times| == |addrs| && SetAll(db.core, mode, addrs, times).Ok?
    ensures var r := SetAll(db.core, mode, addrs, times);
      IncGCSize(db.gcSize, r.change) == |r.b.gc| <==> !Twice(Moved(db.core, mode, addrs, times))
  {
    hide AgreeAt, SetAll, KeySet, KeyCount, Twice, Moved;
    var r, ks := SetAll(db.core, mode, addrs, times), Moved(db.core, mode, addrs, times);
    CallKeys(db.core, mode, addrs, times, t);
    assert ks[..|ks|] == ks;
    CountKeys(ks, |ks|);
    MovedInGc(db.core, mode, addrs, times, t);
    Sizes(db.core.gc.Keys, KeySet(ks));
    assert |r.b.gc| == |r.b.gc.Keys| && |db.core.gc| == |db.core.gc.Keys|;
  }

  // ---------------------------------------------------------------- agreement

  lemma PinSame(b: Core, e: Core, a: Addr, n: nat)
    requires SameAt(b, e, a)
    ensures SameAt(PinPut(b, a, n), PinPut(e, a, n), a) && SameAt(PinDelete(b, a), PinDelete(e, a), a)
  {
    hide SameAt, PinPut, PinDelete;
    PinPutSame(b, e, a, n);
    PinDeleteSame(b, e, a);
  }

  lemma PinPutSame(b: Core, e: Core, a: Addr, n: nat)
    requires SameAt(b, e, a)
    ensures SameAt(PinPut(b, a, n), PinPut(e, a, n), a)
  {}

  lemma PinDeleteSame(b: Core, e: Core, a: Addr)
    requires SameAt(b, e, a)
    ensures SameAt(PinDelete(b, a), PinDelete(e, a), a)
  {}

  lemma GcSame(b: Core, e: Core, a: Addr, k: GcKey, v: GcValue)
    requires SameAt(b, e, a)
    ensures SameAt(GcPut(b, k, v), GcPut(e, k, v), a) && SameAt(GcDelete(b, k), GcDelete(e, k), a)
  {
    hide SameAt, GcPut, GcDelete;
    GcPutSame(b, e, a, k, v);
    GcDeleteSame(b, e, a, k);
  }

  lemma GcPutSame(b: Core, e: Core, a: Addr, k: GcKey, v: GcValue)
    requires SameAt(b, e, a)
    ensures SameAt(GcPut(b, k, v), GcPut(e, k, v), a)
  {}

  lemma GcDeleteSame(b: Core, e: Core, a: Addr, k: GcKey)
    requires SameAt(b, e, a)
    ensures SameAt(GcDelete(b, k), GcDelete(e, k), a)
  {}

  lemma AccessSame(b: Core, e: Core, a: Addr, t: int)
    requires SameAt(b, e, a)
    ensures SameAt(AccessPut(b, a, t), AccessPut(e, a, t), a) && SameAt(AccessDelete(b, a), AccessDelete(e, a), a)
  {
    hide SameAt, AccessPut, AccessDelete;
    AccessPutSame(b, e, a, t);
    AccessDeleteSame(b, e, a);
  }

  lemma AccessPutSame(b: Core, e: Core, a: Addr, t: int)
    requires SameAt(b, e, a)
    ensures SameAt(AccessPut(b, a, t), AccessPut(e, a, t), a)
  {}

  lemma AccessDeleteSame(b: Core, e: Core, a: Addr)
    requires SameAt(b, e, a)
    ensures SameAt(AccessDelete(b, a), AccessDelete(e, a), a)
  {}

  lemma PushSame(b: Core, e: Core, a: Addr, k: PushKey)
    requires SameAt(b, e, a)
    ensures SameAt(PushDelete(b, k), PushDelete(e, k), a)
  {}

  lemma DataSame(b: Core, e: Core, a: Addr)
    requires SameAt(b, e, a)
    ensures SameAt(DataDelete(b, a), DataDelete(e, a), a)
  {}

  lemma PinInSame(db: Core, b: Core, e: Core, a: Addr)
    requires SameAt(b, e, a)
    ensures SameAt(PinIn(db, b, a).b, PinIn(db, e, a).b, a)
  {
    hide SameAt, PinPut, GcDelete;
    PinSame(b, e, a, 1);
    if a in db.pin { PinSame(b, e, a, db.pin[a] + 1); }
    if a in db.data {
      var k := KeyOf(db, a);
      GcSame(b, e, a, k, GcValue(0, 0));
      PinSame(GcDelete(b, k), GcDelete(e, k), a, 1);
    }
  }

  lemma RemoveInSame(db: Core, b: Core, e: Core, a: Addr)
    requires SameAt(b, e, a)
    ensures SameAt(RemoveIn(db, b, a).b, RemoveIn(db, e, a).b, a)
  {
    hide SameAt, DataDelete, AccessDelete, GcDelete, PinDelete;
    if a in db.data {
      DataSame(b, e, a);
      AccessSame(DataDelete(b, a), DataDelete(e, a), a, 0);
      var b1, e1 := AccessDelete(DataDelete(b, a), a), AccessDelete(DataDelete(e, a), a);
      GcSame(b1, e1, a, KeyOf(db, a), GcValue(0, 0));
      PinSame(b1, e1, a, 0);
    }
  }

  lemma SyncInSame(db: Core, b: Core, e: Core, a: Addr, now: Now)
    requires SameAt(b, e, a)
    ensures SameAt(SyncIn(db, b, a, now).b, SyncIn(db, e, a, now).b, a)
  {
    hide SameAt, PushDelete, AccessPut, PinIn;
    var k := PushKey(if a in db.data then db.data[a].storeTs else 0, a);
    PushSame(b, e, a, k);
    var b1, e1 := PushDelete(b, k), PushDelete(e, k);
    PinInSame(db, b1, e1, a);
    AccessSame(b1, e1, a, now.access);
    PinInSame(db, AccessPut(b1, a, now.access), AccessPut(e1, a, now.access), a);
  }

  lemma UnpinInSame(db: Core, b: Core, e: Core, a: Addr, now: Now)
    requires SameAt(b, e, a)
    ensures SameAt(UnpinIn(db, b, a, now).b, UnpinIn(db, e, a, now).b, a)
  {
    hide SameAt, PinPut, PinDelete, AccessPut, GcPut;
    PinSame(b, e, a, if a in db.pin && db.pin[a] > 1 then db.pin[a] - 1 else 0);
    if a in db.data {
      var b1, e1 := PinDelete(b, a), PinDelete(e, a);
      var v := GcValue(db.data[a].batch, NO_INDEX);
      GcSame(b1, e1, a, KeyOf(db, a), v);
      AccessSame(b1, e1, a, now.access);
      GcSame(AccessPut(b1, a, now.access), AccessPut(e1, a, now.access), a, GcKey(now.access, db.data[a].binID, a), v);
    }
  }

  /** What a step leaves under its address depends only on what the batch held there. */
  lemma StepSame(db: Core, b: Core, e: Core, mode: SetMode, a: Addr, now: Now)
    requires SameAt(b, e, a)
    ensures SameAt(SetIn(db, b, mode, a, now).b, SetIn(db, e, mode, a, now).b, a)
  {
    hide SameAt, PinIn, RemoveIn, SyncIn, UnpinIn;
    PinInSame(db, b, e, a);
    RemoveInSame(db, b, e, a);
    SyncInSame(db, b, e, a, now);
    UnpinInSame(db, b, e, a, now);
  }

  /** Doing a step again that moves nothing leaves the later result. */
  lemma StepAgain(db: Core, mode: SetMode, a: Addr, now: Now, again: Now, t: int)
    requires AgreeAt(db, t, a) && !Moves(db, mode, a) && SetIn(db, db, mode, a, now).Ok?
    ensures SameAt(SetIn(db, db, mode, a, again).b, SetIn(db, SetIn(db, db, mode, a, now).b, mode, a, again).b, a)
  {
    hide SameAt, AgreeAt, PinIn, RemoveIn, SyncIn, UnpinIn, Collectable, Uncaches;
    match mode {
      case SetPin => PinAgain(db, a, t);
      case SetRemove => RemoveAgain(db, a, t);
      case SetSync => SyncAgain(db, a, now, again, t);
      case SetUnpin => UnpinAgain(db, a, now, again, t);
    }
  }

  lemma PinAgain(db: Core, a: Addr, t: int)
    requires AgreeAt(db, t, a) && !Collectable(db, a)
    ensures SameAt(PinIn(db, db, a).b, PinIn(db, PinIn(db, db, a).b, a).b, a)
  {}

  lemma RemoveAgain(db: Core, a: Addr, t: int)
    requires AgreeAt(db, t, a) && !Collectable(db, a)
    ensures SameAt(RemoveIn(db, db, a).b, RemoveIn(db, RemoveIn(db, db, a).b, a).b, a)
  {}

  lemma SyncAgain(db: Core, a: Addr, now: Now, again: Now, t: int)
    requires AgreeAt(db, t, a) && !Collectable(db, a)
    ensures SameAt(SyncIn(db, db, a, again).b, SyncIn(db, SyncIn(db, db, a, now).b, a, again).b, a)
  {}

  lemma UnpinAgain(db: Core, a: Addr, now: Now, again: Now, t: int)
    requires AgreeAt(db, t, a) && !Uncaches(db, a) && UnpinIn(db, db, a, now).Ok?
    ensures SameAt(UnpinIn(db, db, a, again).b, UnpinIn(db, UnpinIn(db, db, a, now).b, a, again).b, a)
  {}

  lemma StepOnlyAt(db: Core, b: Core, mode: SetMode, a: Addr, now: Now)
    ensures OnlyAt(b, SetIn(db, b, mode, a, now).b, a)
  {
    hide OnlyAt, PinIn, RemoveIn, SyncIn, UnpinIn;
    OnlyAtSelf(b, a);
    PinOnlyAt(db, b, b, a);
    RemoveOnlyAt(db, b, b, a);
    SyncOnlyAt(db, b, b, a, now);
    UnpinOnlyAt(db, b, b, a, now);
  }

  /** Under x the batch holds what one step at some time of the call leaves there. */
  ghost predicate DoneAt(db: Core, b: Core, mode: SetMode, x: Addr, t: int, t': int) {
    exists now: Now ::
      t < now.access <= t' && SetIn(db, db, mode, x, now).Ok? && SameAt(SetIn(db, db, mode, x, now).b, b, x)
  }

  ghost predicate Pointwise(db: Core, b: Core, mode: SetMode, addrs: seq<Addr>, t: int, t': int) {
    forall x :: if x in addrs then DoneAt(db, b, mode, x, t, t') else SameAt(db, b, x)
  }

  lemma SameTrans(c: Core, d: Core, e: Core, x: Addr)
    requires SameAt(c, d, x) && SameAt(d, e, x)
    ensures SameAt(c, e, x)
  {}

  lemma StillDone(db: Core, b: Core, e: Core, mode: SetMode, x: Addr, t: int, t1: int, t2: int)
    requires DoneAt(db, b, mode, x, t, t1) && SameAt(b, e, x) && t1 <= t2
    ensures DoneAt(db, e, mode, x, t, t2)
  {
    hide SetIn, SameAt;
    var now: Now :| t < now.access <= t1 && SetIn(db, db, mode, x, now).Ok?
                    && SameAt(SetIn(db, db, mode, x, now).b, b, x);
    SameTrans(SetIn(db, db, mode, x, now).b, b, e, x);
  }

  /** The step at a, new to the call or moving nothing. */
  lemma DoneNow(db: Core, b: Core, mode: SetMode, a: Addr, now: Now, again: bool, t: int, t1: int)
    requires AgreeAt(db, t, a) && t < now.access && t1 <= now.access && SetIn(db, b, mode, a, now).Ok?
    requires if again then DoneAt(db, b, mode, a, t, t1) && !Moves(db, mode, a) else SameAt(db, b, a)
    ensures DoneAt(db, SetIn(db, b, mode, a, now).b, mode, a, t, now.access)
  {
    var s := SetIn(db, b, mode, a, now);
    StepKeys(db, b, mode, a, now, t);
    StepKeys(db, db, mode, a, now, t);
    hide SetIn, SameAt, AgreeAt, Moves, Refused;
    if again {
      var was: Now :| t < was.access <= t1 && SetIn(db, db, mode, a, was).Ok?
                      && SameAt(SetIn(db, db, mode, a, was).b, b, a);
      var e := SetIn(db, db, mode, a, was).b;
      StepAgain(db, mode, a, was, now, t);
      StepSame(db, e, b, mode, a, now);
      SameTrans(SetIn(db, db, mode, a, now).b, SetIn(db, e, mode, a, now).b, s.b, a);
    } else {
      StepSame(db, db, b, mode, a, now);
    }
  }

  lemma PointwiseNext(db: Core, b: Core, mode: SetMode, addrs: seq<Addr>, a: Addr, now: Now, t: int, t1: int)
    requires Pointwise(db, b, mode, addrs, t, t1) && AgreeAt(db, t, a) && t < now.access && t1 <= now.access
    requires SetIn(db, b, mode, a, now).Ok? && (a in addrs ==> !Moves(db, mode, a))
    ensures Pointwise(db, SetIn(db, b, mode, a, now).b, mode, addrs + [a], t, now.access)
  {
    hide SetIn, SameAt, AgreeAt, Moves, DoneAt;
    var e := SetIn(db, b, mode, a, now).b;
    StepOnlyAt(db, b, mode, a, now);
    DoneNow(db, b, mode, a, now, a in addrs, t, t1);
    forall x ensures if x in addrs + [a] then DoneAt(db, e, mode, x, t, now.access) else SameAt(db, e, x) {
      if x != a {
        assert SameAt(b, e, x);
        if x in addrs { StillDone(db, b, e, mode, x, t, t1, now.access); } else { SameTrans(db, b, e, x); }
      }
    }
  }

  lemma {:induction false} CallPointwise(db: Core, mode: SetMode, addrs: seq<Addr>, times: seq<Now>, t: int)
    requires Agree(db, t) && |times| == |addrs| && Ticking(times, t) && !MovesTwice(db, mode, addrs)
    ensures var r := SetAll(db, mode, addrs, times); r.Ok? ==> Pointwise(db, r.b, mode, addrs, t, EndTime(times, t))
    decreases |addrs|
  {
    hide AgreeAt, SetIn, SameAt, Moves;
    if addrs == [] {
      SameEverywhere(db);
    } else {
      var n := |addrs| - 1;
      LastTick(times, t, n);
      assert !MovesTwice(db, mode, addrs[..n]);
      CallPointwise(db, mode, addrs[..n], times[..n], t);
      assert addrs[n] in addrs[..n] ==> !Moves(db, mode, addrs[n]) by {
        if addrs[n] in addrs[..n] { var i :| 0 <= i < n && addrs[i] == addrs[n]; }
      }
      var r := SetAll(db, mode, addrs[..n], times[..n]);
      assert AgreeAt(db, t, addrs[n]);
      hide Pointwise, Ticking;
      if SetAll(db, mode, addrs, times).Ok? {
        PointwiseNext(db, r.b, mode, addrs[..n], addrs[n], times[n], t, EndTime(times[..n], t));
        assert addrs[..n] + [addrs[n]] == addrs;
      }
    }
  }

  lemma PointwiseAgrees(db: Core, b: Core, mode: SetMode, addrs: seq<Addr>, t: int, t': int)
    requires Agree(db, t) && t <= t' && Pointwise(db, b, mode, addrs, t, t')
    ensures Agree(b, t')
  {
    hide AgreeAt, SetIn, SameAt;
    forall x ensures AgreeAt(b, t', x) {
      assert AgreeAt(db, t, x);
      if x in addrs {
        assert DoneAt(db, b, mode, x, t, t');
        var now: Now :| t < now.access <= t' && SetIn(db, db, mode, x, now).Ok?
                        && SameAt(SetIn(db, db, mode, x, now).b, b, x);
        SetKept(db, mode, x, now, t, t');
        SameAgrees(SetIn(db, db, mode, x, now).b, b, t', x);
      } else {
        LaterAgrees(db, t, t', x);
        SameAgrees(db, b, t', x);
      }
    }
  }

  /** Different keys added for one address cannot both be current. */
  lemma TwoKeys(db: Core, b: Core, addrs: seq<Addr>, times: seq<Now>, i: nat, j: nat, t': int)
    requires |times| == |addrs| && i < j < |addrs| && addrs[i] == addrs[j] && Moves(db, SetUnpin, addrs[i])
    requires KeySet(Moved(db, SetUnpin, addrs, times)) <= b.gc.Keys
    requires MoveKey(db, addrs[i], times[i]) != MoveKey(db, addrs[j], times[j])
    ensures !AgreeAt(b, t', addrs[i])
  {
    var ks := Moved(db, SetUnpin, addrs, times);
    assert ks[i].value in KeySet(ks) && ks[j].value in KeySet(ks);
  }

  /**
  A set call, in any mode and with any repetition, keeps the invariant if and only if it is refused or no
  chunk it moves is given twice.
  */
  lemma SetExact(db: DB, mode: SetMode, addrs: seq<Addr>, times: seq<Now>, t: int)
    requires Inv(db, t) && |times| == |addrs| && Ticking(times, t)
    ensures Inv(Set(db, mode, addrs, times), EndTime(times, t)) <==>
              (exists i :: 0 <= i < |addrs| && Refused(db.core, mode, addrs[i])) || !MovesTwice(db.core, mode, addrs)
  {
    hide AgreeAt, SetAll, Moves, Refused;
    var c, t' := db.core, EndTime(times, t);
    var r := SetAll(c, mode, addrs, times);
    CallKeys(c, mode, addrs, times, t);
    if r.Err? {
      AgreeLater(c, t, t');
    } else {
      CallCounts(db, mode, addrs, times, t);
      if !MovesTwice(c, mode, addrs) {
        CallPointwise(c, mode, addrs, times, t);
        PointwiseAgrees(c, r.b, mode, addrs, t, t');
        NotTwice(c, mode, addrs, times);
      } else {
        var i, j :| 0 <= i < j < |addrs| && addrs[i] == addrs[j] && Moves(c, mode, addrs[i]);
        Broken(db, mode, addrs, times, i, j, t);
      }
    }
  }

  /** Addresses outside the call are left alone, in any database and with any repetition. */
  lemma SetElsewhere(db: DB, mode: SetMode, addrs: seq<Addr>, times: seq<Now>, x: Addr)
    requires |times| == |addrs| && x !in addrs
    ensures SameAt(db.core, Set(db, mode, addrs, times).core, x)
  {
    BatchElsewhere(db.core, mode, addrs, times, x);
  }

  lemma {:induction false} BatchElsewhere(db: Core, mode: SetMode, addrs: seq<Addr>, times: seq<Now>, x: Addr)
    requires |times| == |addrs| && x !in addrs
    ensures SetAll(db, mode, addrs, times).Ok? ==> SameAt(db, SetAll(db, mode, addrs, times).b, x)
    decreases |addrs|
  {
    hide SetIn;
    if addrs != [] {
      var n := |addrs| - 1;
      BatchElsewhere(db, mode, addrs[..n], times[..n], x);
      var r := SetAll(db, mode, addrs[..n], times[..n]);
      if r.Ok? {
        StepOnlyAt(db, r.b, mode, addrs[n], times[n]);
        assert SameAt(r.b, SetIn(db, r.b, mode, addrs[n], times[n]).b, x);
      }
    }
  }

  lemma NotTwice(c: Core, mode: SetMode, addrs: seq<Addr>, times: seq<Now>)
    requires |times| == |addrs| && !MovesTwice(c, mode, addrs)
    ensures !Twice(Moved(c, mode, addrs, times))
  {
    hide Moves;
  }

  lemma Broken(db: DB, mode: SetMode, addrs: seq<Addr>, times: seq<Now>, i: nat, j: nat, t: int)
    requires Inv(db, t) && |times| == |addrs| && SetAll(db.core, mode, addrs, times).Ok?
    requires i < j < |addrs| && addrs[i] == addrs[j] && Moves(db.core, mode, addrs[i])
    ensures !Inv(Set(db, mode, addrs, times), EndTime(times, t))
  {
    hide AgreeAt, SetAll;
    var c := db.core;
    var r := SetAll(c, mode, addrs, times);
    CallKeys(c, mode, addrs, times, t);
    CallCounts(db, mode, addrs, times, t);
    var k, m := MoveKey(c, addrs[i], times[i]), MoveKey(c, addrs[j], times[j]);
    if k == m {
      assert Moved(c, mode, addrs, times)[i] == Moved(c, mode, addrs, times)[j];
    } else {
      assert AgreeAt(c, t, addrs[i]);
      MoveKeyInGc(c, mode, addrs[i], times[i], t);
      MoveKeyInGc(c, mode, addrs[j], times[j], t);
      assert mode == SetUnpin by { CollectableAccessed(c, addrs[i], t); }
      TwoKeys(c, r.b, addrs, times, i, j, EndTime(times, t));
    }
  }

  lemma CollectableAccessed(c: Core, a: Addr, t: int)
    requires AgreeAt(c, t, a)
    ensures Collectable(c, a) ==> a in c.access
  {}

  /** A store with chunk 7 only, collectable, or pinned once for the call that unpins. */
  function OneChunk(po: Addr -> nat, mode: SetMode): DB {
    var pinned := mode == SetUnpin;
    var gc := if pinned then map[] else map[GcKey(2, 1, 7) := GcValue(0, 0)];
    DB(po, Core(map[7 := Data(1, 1, 0, 0, 0)], map[7 := 2], {}, gc, if pinned then map[7 := 1] else map[]),
       map[], {}, map[], map[], map[], if pinned then 0 else 1)
  }

  /** In every mode, giving that chunk twice breaks the invariant. */
  lemma RepeatBreaks(po: Addr -> nat, mode: SetMode)
    ensures Inv(OneChunk(po, mode), 2)
    ensures !Inv(Set(OneChunk(po, mode), mode, [7, 7], [Now(3, 4), Now(5, 6)]), 6)
  {
    var c, addrs := OneChunk(po, mode).core, [7, 7];
    assert GcKey(2, 1, 7) in c.gc || mode == SetUnpin;
    assert Moves(c, mode, 7) && !Refused(c, mode, 7);
    assert addrs[0] == addrs[1] && MovesTwice(c, mode, addrs);
    SetExact(OneChunk(po, mode), mode, addrs, [Now(3, 4), Now(5, 6)], 2);
  }
}
