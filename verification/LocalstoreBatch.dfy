/** Whole calls: a batch over distinct addresses behaves as its steps one after the other and keeps the indexes in
    agreement. */
module LocalstoreBatch {
  import opened Localstore
  import opened LocalstoreInv

  /** All addresses agree. */
  ghost predicate Agree(c: Core, t: int) {
    t >= 0 && forall a :: AgreeAt(c, t, a)
  }

  /** The whole invariant about collectable chunks: gcSize is exact. */
  ghost predicate Inv(db: DB, t: int) {
    Agree(db.core, t) && db.gcSize == |db.core.gc|
  }

  /** After a step at a, the other addresses still agree. */
  lemma AgreeAfter(c: Core, d: Core, a: Addr, t: int, t': int)
    requires Agree(c, t) && t <= t' && OnlyAt(c, d, a) && AgreeAt(d, t', a)
    ensures Agree(d, t')
  {
    hide AgreeAt, SameAt;
    forall x
      ensures AgreeAt(d, t', x)
    {
      if x != a {
        assert AgreeAt(c, t, x);
        LaterAgrees(c, t, t', x);
        SameAgrees(c, d, t', x);
      }
    }
  }

  // ---------------------------------------------------------------- clock and addresses

  /** Strictly increasing clock readings after t. */
  predicate Ticking(times: seq<Now>, t: int) {
    && (forall i :: 0 <= i < |times| ==> t < times[i].store < times[i].access)
    && (forall i, j :: 0 <= i < j < |times| ==> times[i].access < times[j].store)
  }

  function EndTime(times: seq<Now>, t: int): int {
    if times == [] then t else times[|times| - 1].access
  }

  predicate Distinct(addrs: seq<Addr>) {
    forall i, j :: 0 <= i < j < |addrs| ==> addrs[i] != addrs[j]
  }

  lemma LastTick(times: seq<Now>, t: int, n: nat)
    requires Ticking(times, t) && |times| == n + 1
    ensures Ticking(times[..n], t)
            && t <= EndTime(times[..n], t) < times[n].store < times[n].access == EndTime(times, t)
  {}

  // ---------------------------------------------------------------- set

  /** For an address the batch has not touched, reading the database is as good as reading the batch. */
  lemma ReadsAgree(db: Core, b: Core, mode: SetMode, a: Addr, now: Now)
    requires SameAt(db, b, a)
    ensures SetIn(db, b, mode, a, now) == SetIn(b, b, mode, a, now)
  {
    assert a in db.data ==> KeyOf(db, a) == KeyOf(b, a);
  }

  lemma SetKept(c: Core, mode: SetMode, a: Addr, now: Now, t: int, t': int)
    requires AgreeAt(c, t, a) && 0 <= t < now.access <= t'
    ensures Kept(c, SetIn(c, c, mode, a, now), a, t')
  {
    hide AgreeAt, OnlyAt, PinIn, RemoveIn, SyncIn, UnpinIn;
    match mode {
      case SetSync => SyncKept(c, a, now, t, t');
      case SetRemove => RemoveKept(c, a, t); LaterAgrees(RemoveIn(c, c, a).b, t, t', a);
      case SetPin => PinKept(c, a, t); LaterAgrees(PinIn(c, c, a).b, t, t', a);
      case SetUnpin => UnpinKept(c, a, now, t, t');
    }
  }

  /** What a batch over addrs has done so far. */
  ghost predicate BatchKept(db: Core, b: Core, change: int, addrs: seq<Addr>, t': int) {
    && Agree(b, t')
    && |b.gc| == |db.gc| + change
    && (forall x :: x !in addrs ==> SameAt(db, b, x))
  }

  lemma BatchStep(db: Core, b: Core, change: int, addrs: seq<Addr>, a: Addr, s: Step, t: int, t': int)
    requires BatchKept(db, b, change, addrs, t) && Kept(b, s, a, t') && t <= t'
    ensures BatchKept(db, s.b, change + (if s.Ok? then s.change else 0), addrs + [a], t')
  {
    hide AgreeAt;
    AgreeAfter(b, s.b, a, t, t');
    hide Agree;
    forall x | x !in addrs + [a]
      ensures SameAt(db, s.b, x)
    {
      assert x !in addrs && x != a;
      assert SameAt(db, b, x) && SameAt(b, s.b, x);
    }
  }

  lemma BatchStart(db: Core, t: int)
    requires Agree(db, t)
    ensures BatchKept(db, db, 0, [], t)
  {
    hide AgreeAt;
  }

  lemma SizeFits(size: nat, change: int, now: nat)
    requires now == size + change
    ensures IncGCSize(size, change) == now
  {}

  lemma SameEverywhere(c: Core)
    ensures forall x :: SameAt(c, c, x)
  {}

  lemma AgreeLater(c: Core, t: int, t': int)
    requires Agree(c, t) && t <= t'
    ensures Agree(c, t')
  {
    hide AgreeAt;
    forall a ensures AgreeAt(c, t', a) { assert AgreeAt(c, t, a); LaterAgrees(c, t, t', a); }
  }
}
