/** Historical syncing from end to end: the puller's loop over pull-sync exchanges with one honest peer. */
module HistoricalSync {
  import opened Common
  import opened IntervalsText
  import opened Intervals
  import opened Puller
  import opened Pullsync

  /** The addresses a peer's bin lists under the ids lo to hi, in order. */
  function Listed(bin: map<nat, Bytes>, lo: nat, hi: int): seq<Bytes> {
    if hi < lo then [] else Listed(bin, lo, hi - 1) + if hi in bin then [bin[hi]] else []
  }

  lemma {:induction false} ListedIs(bin: map<nat, Bytes>, lo: nat, hi: int, a: Bytes)
    ensures a in Listed(bin, lo, hi) <==> exists id :: lo <= id <= hi && id in bin && bin[id] == a
    decreases hi - lo
  {
    if lo <= hi { ListedIs(bin, lo, hi - 1, a); }
  }

  /** Every chunk the peer lists can be served and is acceptable to the asking node. */
  ghost predicate ServesBin(store: map<Bytes, Chunk>, bin: map<nat, Bytes>, valid: Chunk -> bool,
                            stamped: Chunk -> bool) {
    forall id :: id in bin ==> Serves(store, [bin[id]], valid, stamped)
  }

  /** Where an interval is recorded, the chunks the peer lists there are held. */
  ghost predicate Backed(r: seq<Range>, bin: map<nat, Bytes>, held: set<Bytes>) {
    forall id :: id in bin && Covers(r, id) ==> bin[id] in held
  }

  ghost predicate OneIdEach(bin: map<nat, Bytes>) {
    forall i, j :: i in bin && j in bin && bin[i] == bin[j] ==> i == j
  }

  /**
   * The worker asks for the first missing id up to the cursor, the peer answers with a page up to page(n, s). When it
   * finishes the node holds every chunk the peer lists up to the cursor; it always finishes if the peer lists no
   * address twice; and what was held stays as it was.
   */
  method SyncBin(puller: Puller, key: string, client: Syncer, server: Syncer, bin: map<nat, Bytes>, cur: Uint64,
                 page: (nat, Uint64) -> Uint64)
    returns (finished: bool)
    requires client != server && cur < MAX_UINT64 && forall n: nat, s: Uint64 :: s <= cur ==> s <= page(n, s) <= cur
    requires ServesBin(server.store, bin, client.valid, client.stamped)
    requires Sound(puller.statestore, key) && Backed(RangesAt(puller.statestore, key), bin, client.store.Keys)
    modifies puller, client
    ensures Sound(puller.statestore, key) && Backed(RangesAt(puller.statestore, key), bin, client.store.Keys)
    ensures finished ==> forall id :: id in bin && 1 <= id <= cur ==> bin[id] in client.store
    ensures OneIdEach(bin) ==> finished
    ensures forall a :: a in old(client.store) ==> a in client.store && client.store[a] == old(client.store)[a]
  {
    hide Sound, RangesAt, Filled, ServesBin, Backed, OneIdEach, Listed, Exchanged, FirstMissing, CoversSum;
    var iter := 0;
    ghost var next := 1;
    NothingFilled(RangesAt(puller.statestore, key));
    while true
      invariant Sound(puller.statestore, key) && 1 <= next && Filled(RangesAt(puller.statestore, key), next)
      invariant Backed(RangesAt(puller.statestore, key), bin, client.store.Keys)
      invariant forall a :: a in old(client.store) ==> a in client.store && client.store[a] == old(client.store)[a]
      decreases cur - next
    {
      var s, ok := puller.NextPeerInterval(key);
      ghost var r := RangesAt(puller.statestore, key);
      AtLeast(r, next, s);
      if s > cur {
        FilledUpTo(r, s, cur + 1);
        AllHeld(r, bin, client.store.Keys, cur);
        return true;
      }
      var top := page(iter, s);
      var addrs := Listed(bin, s, top);
      ListedServed(server.store, bin, s, top, client.valid, client.stamped);
      ghost var was := client.store;
      var outcome := SyncInterval(client, server, addrs, top);
      ExchangeHolds(was, client.store, server.store, bin, s, top, outcome);
      StillBacked(r, bin, was.Keys, client.store.Keys);
      if outcome != Topmost(top) { return false; }
      StartsMissing(r, s);
      ok := puller.AddPeerInterval(key, s, top);
      NowBacked(r, RangesAt(puller.statestore, key), bin, client.store.Keys, s, top);
      next := top + 1;
      iter := iter + 1;
    }
  }

  lemma NothingFilled(r: seq<Range>)
    ensures Filled(r, 1)
  {}

  lemma StartsMissing(r: seq<Range>, s: int)
    requires FirstMissing(1, r, s)
    ensures 1 <= s && !Covers(r, s)
  {}

  lemma AllHeld(r: seq<Range>, bin: map<nat, Bytes>, held: set<Bytes>, cur: int)
    requires Filled(r, cur + 1) && Backed(r, bin, held)
    ensures forall id :: id in bin && 1 <= id <= cur ==> bin[id] in held
  {}

  lemma {:induction false} ListedServed(store: map<Bytes, Chunk>, bin: map<nat, Bytes>, lo: nat, hi: int,
                                        valid: Chunk -> bool, stamped: Chunk -> bool)
    requires ServesBin(store, bin, valid, stamped)
    ensures Serves(store, Listed(bin, lo, hi), valid, stamped)
    decreases hi - lo
  {
    if lo <= hi {
      ListedServed(store, bin, lo, hi - 1, valid, stamped);
      if hi in bin { ServesMore(store, Listed(bin, lo, hi - 1), bin[hi], valid, stamped); }
    }
  }

  lemma ServesMore(store: map<Bytes, Chunk>, addrs: seq<Bytes>, a: Bytes, valid: Chunk -> bool, stamped: Chunk -> bool)
    requires Serves(store, addrs, valid, stamped) && Serves(store, [a], valid, stamped)
    ensures Serves(store, addrs + [a], valid, stamped)
  {
    assert [a][0] == a;
  }

  /** After a successful exchange every listed chunk is held; it can only fail when an address is listed twice. */
  lemma ExchangeHolds(was: map<Bytes, Chunk>, now: map<Bytes, Chunk>, served: map<Bytes, Chunk>, bin: map<nat, Bytes>,
                      lo: nat, hi: nat, r: Outcome)
    requires Exchanged(was, now, served, Listed(bin, lo, hi), hi, r)
    ensures r == Topmost(hi) ==> forall id :: lo <= id <= hi && id in bin ==> bin[id] in now
    ensures OneIdEach(bin) ==> r == Topmost(hi)
    ensures was.Keys <= now.Keys && forall a :: a in was ==> now[a] == was[a]
  {
    var addrs := Listed(bin, lo, hi);
    if r == Topmost(hi) {
      forall id | lo <= id <= hi && id in bin ensures bin[id] in now { ListedIs(bin, lo, hi, bin[id]); }
    }
    if OneIdEach(bin) { ListedOnce(bin, lo, hi); }
  }

  lemma {:induction false} ListedOnce(bin: map<nat, Bytes>, lo: nat, hi: int)
    requires OneIdEach(bin)
    ensures Distinct(Listed(bin, lo, hi))
    decreases hi - lo
  {
    if lo <= hi {
      ListedOnce(bin, lo, hi - 1);
      if hi in bin {
        ListedIs(bin, lo, hi - 1, bin[hi]);
        DistinctPlus(Listed(bin, lo, hi - 1), bin[hi]);
      }
    }
  }

  lemma StillBacked(r: seq<Range>, bin: map<nat, Bytes>, was: set<Bytes>, now: set<Bytes>)
    requires Backed(r, bin, was) && was <= now
    ensures Backed(r, bin, now)
  {}

  lemma NowBacked(r: seq<Range>, now: seq<Range>, bin: map<nat, Bytes>, held: set<Bytes>, s: int, top: int)
    requires FirstMissing(1, r, s) && s <= top && CoversSum(now, r, s, top) && Backed(r, bin, held)
    requires forall id :: s <= id <= top && id in bin ==> bin[id] in held
    ensures Backed(now, bin, held) && Filled(now, top + 1)
  {
    hide Covers;
  }
}
