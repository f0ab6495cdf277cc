/** localstore's SubscribePull: a cursor that follows the pull index of one bin over successive snapshots. */
module Subscription {
  import opened Common
  import opened Localstore
  import opened LocalstorePut
  import opened LocalstorePutInv
  import opened LocalstoreGc
  import opened LocalstoreBins
  import opened Distance
  import opened Shed
  import opened Uints
  import opened PullKeys

  datatype Descriptor = Descriptor(addr: Addr, binID: nat)

  /** The database when an iteration starts, and its sorted keys. */
  datatype Snapshot = Snapshot(db: DB, keys: seq<Key>)

  function IdOf(ix: Key, k: Key): nat { if |k| <= |ix| then 0 else UintValue(k[|ix| + 1..]) }

  predicate InRange(since: nat, until: nat, id: nat) { since <= id && (until == 0 || id <= until) }

  /** Everything a snapshot has in the bin and in the range was sent. */
  ghost predicate Delivered(s: Snapshot, bin: nat, since: nat, until: nat, sent: seq<Descriptor>) {
    forall k :: k in s.db.pull && k.bin == bin && InRange(since, until, k.binID) ==>
      Descriptor(s.db.pull[k], k.binID) in sent
  }

  ghost predicate Increasing(sent: seq<Descriptor>) {
    forall i, j :: 0 <= i < j < |sent| ==> sent[i].binID < sent[j].binID
  }

  predicate At(pull: map<PullKey, Addr>, bin: nat, d: Descriptor) {
    PullKey(bin, d.binID) in pull && pull[PullKey(bin, d.binID)] == d.addr
  }

  ghost predicate WasIn(snaps: seq<Snapshot>, n: nat, bin: nat, d: Descriptor) {
    exists t :: 0 <= t < n && t < |snaps| && At(snaps[t].db.pull, bin, d)
  }

  /** Everything sent is in the range and was in the bin at one of the first n snapshots. */
  ghost predicate Genuine(snaps: seq<Snapshot>, n: nat, bin: nat, since: nat, until: nat, sent: seq<Descriptor>) {
    && n <= |snaps| && (forall i :: 0 <= i < |sent| ==> InRange(since, until, sent[i].binID))
    && (forall i :: 0 <= i < |sent| ==> WasIn(snaps, n, bin, sent[i]))
  }

  /** Snapshots of one run of the store, in order. */
  ghost predicate Feed(ix: Key, snaps: seq<Snapshot>) {
    && (forall t ::
          0 <= t < |snaps| ==> Encodes(ix, snaps[t].db.pull, snaps[t].keys) && Binned(snaps[t].db, snaps[t].db.binIDs))
    && (forall t, u :: 0 <= t < u < |snaps| ==> Later(snaps[t].db, snaps[u].db))
  }

  /** Moments of any run of the store are such a feed. */
  lemma RunIsFeed(ix: Key, states: seq<Store>, ops: seq<Op>, moments: seq<nat>, snaps: seq<Snapshot>)
    requires AnyRun(states, ops)
    requires |moments| == |snaps| && (forall t :: 0 <= t < |moments| ==> moments[t] <= |ops|)
    requires forall t, u :: 0 <= t < u < |moments| ==> moments[t] <= moments[u]
    requires forall t :: 0 <= t < |snaps| ==>
               snaps[t].db == states[moments[t]].db && Encodes(ix, snaps[t].db.pull, snaps[t].keys)
    ensures Feed(ix, snaps)
  {
    hide Encodes, Binned, Later, Do;
    forall t | 0 <= t < |snaps| ensures Binned(snaps[t].db, snaps[t].db.binIDs) {
      BinIDsIncrease(states, ops, moments[t], moments[t]);
    }
    forall t, u | 0 <= t < u < |snaps| ensures Later(snaps[t].db, snaps[u].db) {
      BinIDsIncrease(states, ops, moments[t], moments[u]);
    }
  }

  /** Where the next iteration starts: at low, or behind the last id sent. */
  ghost predicate Cursor(ix: Key, bin: Byte, since: nat, sinceItem: Option<Key>, first: bool, low: nat) {
    && since < Pow256(WIDTH) && (first ==> low == since)
    && (first && since == 0 ==> sinceItem.None?)
    && (first && since > 0 ==> sinceItem == Some(PullKeyBytes(ix, bin, since)))
    && (!first ==> 0 < low <= Pow256(WIDTH) && sinceItem == Some(PullKeyBytes(ix, bin, low - 1)))
  }

  /** What one iteration over a snapshot visits: the ids from low on, in order, to the first one at or above until. */
  ghost predicate VisitsIds(bin: nat, pull: map<PullKey, Addr>, until: nat, low: nat, ids: seq<nat>) {
    && (forall i ::
          0 <= i < |ids| ==>
            low <= ids[i] < Pow256(WIDTH) && PullKey(bin, ids[i]) in pull
            && (i < |ids| - 1 ==> until == 0 || ids[i] < until))
    && (forall i, j :: 0 <= i < j < |ids| ==> ids[i] < ids[j])
    && (forall k :: k in pull && k.bin == bin && low <= k.binID ==>
          k.binID in ids || (ids != [] && until > 0 && until <= ids[|ids| - 1] < k.binID))
  }

  function Ids(ix: Key, visited: seq<Key>): (ids: seq<nat>)
    ensures |ids| == |visited|
  {
    seq(|visited|, i requires 0 <= i < |visited| => IdOf(ix, visited[i]))
  }

  ghost function StartKey(ix: Key, bin: Byte, sinceItem: Option<Key>): Key {
    if sinceItem.Some? then sinceItem.value else ix + [bin]
  }

  lemma IdOfKey(ix: Key, bin: Byte, id: nat)
    requires id < Pow256(WIDTH)
    ensures IdOf(ix, PullKeyBytes(ix, bin, id)) == id
  {
    hide UintBytes, UintValue, Pow256;
    UintRoundTrip(id, WIDTH);
    assert PullKeyBytes(ix, bin, id)[|ix| + 1..] == UintBytes(id, WIDTH);
  }

  /** Keys at or behind the cursor are those of ids from low on. */
  lemma FromLow(ix: Key, bin: Byte, since: nat, sinceItem: Option<Key>, first: bool, low: nat, id: nat)
    requires Cursor(ix, bin, since, sinceItem, first, low) && id < Pow256(WIDTH)
    ensures var k, start := PullKeyBytes(ix, bin, id), StartKey(ix, bin, sinceItem);
      low <= id <==> !Less(k, start) && !(!first && k == start)
  {
    hide Less, PullKeyBytes, Pow256;
    if first && since == 0 {
      BinPrefix(ix, bin, bin, id);
      PrefixRange(PullKeyBytes(ix, bin, id), ix + [bin]);
    } else {
      var n: nat := if first then since else low - 1;
      KeyOrder(ix, bin, id, n);
    }
  }

  lemma WantedKey(ix: Key, bin: Byte, s: Snapshot, since: nat, sinceItem: Option<Key>, first: bool, low: nat, b: Key)
    requires Encodes(ix, s.db.pull, s.keys) && Cursor(ix, bin, since, sinceItem, first, low)
    requires Wanted(s.keys, ix + [bin], StartKey(ix, bin, sinceItem), !first, b)
    ensures var id := IdOf(ix, b);
            low <= id < Pow256(WIDTH) && b == PullKeyBytes(ix, bin, id) && PullKey(bin, id) in s.db.pull
  {
    hide Less, PullKeyBytes, Pow256, Sorted, IdOf, Cursor;
    assert HasPrefix(b, ix) by { assert b[..|ix + [bin]|][..|ix|] == b[..|ix|] && (ix + [bin])[..|ix|] == ix; }
    var k :| k in s.db.pull && Fits(k) && b == PullKeyBytes(ix, k.bin, k.binID);
    BinPrefix(ix, bin, k.bin, k.binID);
    assert k == PullKey(bin, k.binID);
    IdOfKey(ix, bin, k.binID);
    FromLow(ix, bin, since, sinceItem, first, low, k.binID);
  }

  lemma WantedId(ix: Key, bin: Byte, s: Snapshot, since: nat, sinceItem: Option<Key>, first: bool, low: nat, k: PullKey)
    requires Encodes(ix, s.db.pull, s.keys) && Cursor(ix, bin, since, sinceItem, first, low)
    requires k in s.db.pull && k.bin == bin && low <= k.binID
    ensures k.binID < Pow256(WIDTH) && IdOf(ix, PullKeyBytes(ix, bin, k.binID)) == k.binID
    ensures Wanted(s.keys, ix + [bin], StartKey(ix, bin, sinceItem), !first, PullKeyBytes(ix, bin, k.binID))
  {
    hide Less, PullKeyBytes, Pow256, Sorted, IdOf, Cursor, HasPrefix;
    BinPrefix(ix, bin, bin, k.binID);
    IdOfKey(ix, bin, k.binID);
    FromLow(ix, bin, since, sinceItem, first, low, k.binID);
  }

  /** The key order of the index, read as BinIDs. */
  lemma VisitedIds(ix: Key, bin: Byte, s: Snapshot, since: nat, until: nat, sinceItem: Option<Key>, first: bool,
                   low: nat,
                   stop: Key -> bool, visited: seq<Key>)
    requires Encodes(ix, s.db.pull, s.keys) && Cursor(ix, bin, since, sinceItem, first, low)
    requires forall k :: stop(k) <==> until > 0 && IdOf(ix, k) >= until
    requires Visits(s.keys, ix + [bin], StartKey(ix, bin, sinceItem), !first, stop, visited)
    ensures VisitsIds(bin, s.db.pull, until, low, Ids(ix, visited))
    ensures forall i :: 0 <= i < |visited| ==> visited[i] == PullKeyBytes(ix, bin, Ids(ix, visited)[i])
  {
    hide Less, PullKeyBytes, Pow256, Encodes, IdOf, Cursor, Wanted, StartKey, Sorted;
    var ids := Ids(ix, visited);
    forall i | 0 <= i < |visited|
      ensures low <= ids[i] < Pow256(WIDTH) && visited[i] == PullKeyBytes(ix, bin, ids[i])
              && PullKey(bin, ids[i]) in s.db.pull
    {
      WantedKey(ix, bin, s, since, sinceItem, first, low, visited[i]);
    }
    forall i, j | 0 <= i < j < |ids| ensures ids[i] < ids[j] { IdsInOrder(ix, bin, visited, i, j); }
    forall k | k in s.db.pull && k.bin == bin && low <= k.binID
      ensures k.binID in ids || (ids != [] && until > 0 && until <= ids[|ids| - 1] < k.binID)
    {
      WantedId(ix, bin, s, since, sinceItem, first, low, k);
      IdReached(ix, bin, until, stop, visited, k.binID);
    }
  }

  lemma IdsInOrder(ix: Key, bin: Byte, visited: seq<Key>, i: nat, j: nat)
    requires Sorted(visited) && i < j < |visited|
    requires IdOf(ix, visited[i]) < Pow256(WIDTH) && visited[i] == PullKeyBytes(ix, bin, IdOf(ix, visited[i]))
    requires IdOf(ix, visited[j]) < Pow256(WIDTH) && visited[j] == PullKeyBytes(ix, bin, IdOf(ix, visited[j]))
    ensures IdOf(ix, visited[i]) < IdOf(ix, visited[j])
  {
    hide Less, PullKeyBytes, Pow256, IdOf;
    assert Less(visited[i], visited[j]);
    KeyOrder(ix, bin, IdOf(ix, visited[i]), IdOf(ix, visited[j]));
  }

  /** An id whose key was visited, or lies behind the one that stopped the iteration. */
  lemma IdReached(ix: Key, bin: Byte, until: nat, stop: Key -> bool, visited: seq<Key>, id: nat)
    requires forall k :: stop(k) <==> until > 0 && IdOf(ix, k) >= until
    requires id < Pow256(WIDTH) && var b := PullKeyBytes(ix, bin, id);
      b in visited || (visited != [] && stop(visited[|visited| - 1]) && Less(visited[|visited| - 1], b))
    requires forall i :: 0 <= i < |visited| ==>
               IdOf(ix, visited[i]) < Pow256(WIDTH) && visited[i] == PullKeyBytes(ix, bin, IdOf(ix, visited[i]))
    ensures var ids := Ids(ix, visited); id in ids || (ids != [] && until > 0 && until <= ids[|ids| - 1] < id)
  {
    hide Less, PullKeyBytes, Pow256, IdOf;
    var b, ids := PullKeyBytes(ix, bin, id), Ids(ix, visited);
    if b in visited {
      var i :| 0 <= i < |visited| && visited[i] == b;
      KeyOrder(ix, bin, id, IdOf(ix, visited[i]));
      assert ids[i] == id;
    } else {
      KeyOrder(ix, bin, ids[|ids| - 1], id);
    }
  }

  /** Descriptors of the ids of a bin. */
  function Batch(pull: map<PullKey, Addr>, bin: nat, ids: seq<nat>): (b: seq<Descriptor>)
    ensures |b| == |ids|
  {
    seq(|ids|, i requires 0 <= i < |ids| =>
      Descriptor(if PullKey(bin, ids[i]) in pull then pull[PullKey(bin, ids[i])] else 0, ids[i]))
  }

  /** Everything known after t iterations; low is behind the last id sent. */
  ghost predicate Progress(snaps: seq<Snapshot>, t: nat, bin: nat, since: nat, until: nat, sent: seq<Descriptor>,
                           low: nat) {
    && Increasing(sent) && Genuine(snaps, t, bin, since, until, sent) && since <= low
    && (sent == [] ==> low == since)
    && (sent != [] ==> t > 0 && low == sent[|sent| - 1].binID + 1 && low - 1 <= Counter(snaps[t - 1].db.binIDs, bin))
    && (forall u :: 0 <= u < t ==> Delivered(snaps[u], bin, since, until, sent))
  }

  /** Below the cursor a snapshot has nothing that was not already sent. */
  lemma NothingNewBelow(ix: Key, snaps: seq<Snapshot>, t: nat, bin: nat, since: nat, until: nat,
                        sent: seq<Descriptor>, low: nat, k: PullKey)
    requires Feed(ix, snaps) && t < |snaps| && Progress(snaps, t, bin, since, until, sent, low)
    requires k in snaps[t].db.pull && k.bin == bin && InRange(since, until, k.binID) && k.binID < low
    ensures Descriptor(snaps[t].db.pull[k], k.binID) in sent
  {
    hide Increasing, Genuine, Encodes, Binned;
    assert Later(snaps[t - 1].db, snaps[t].db);
    assert Delivered(snaps[t - 1], bin, since, until, sent);
  }

  lemma ThisDelivered(ix: Key, snaps: seq<Snapshot>, t: nat, bin: nat, since: nat, until: nat, sent: seq<Descriptor>,
                      low: nat, ids: seq<nat>, n: nat)
    requires Feed(ix, snaps) && t < |snaps| && Progress(snaps, t, bin, since, until, sent, low)
    requires VisitsIds(bin, snaps[t].db.pull, until, low, ids)
    requires n == |ids| || (n == |ids| - 1 && until > 0 && ids[n] > until)
    ensures Delivered(snaps[t], bin, since, until, sent + Batch(snaps[t].db.pull, bin, ids[..n]))
  {
    hide Feed, Progress, Pow256;
    var pull := snaps[t].db.pull;
    var more := Batch(pull, bin, ids[..n]);
    forall k | k in pull && k.bin == bin && InRange(since, until, k.binID)
      ensures Descriptor(pull[k], k.binID) in sent + more
    {
      if k.binID < low {
        NothingNewBelow(ix, snaps, t, bin, since, until, sent, low, k);
      } else {
        var i :| 0 <= i < |ids| && ids[i] == k.binID;
        assert more[i] == Descriptor(pull[k], k.binID);
      }
    }
  }

  lemma Once(snaps: seq<Snapshot>, t: nat, bin: nat, d: Descriptor)
    requires WasIn(snaps, t, bin, d)
    ensures WasIn(snaps, t + 1, bin, d)
  {}

  lemma JustNow(snaps: seq<Snapshot>, t: nat, bin: nat, d: Descriptor)
    requires t < |snaps| && At(snaps[t].db.pull, bin, d)
    ensures WasIn(snaps, t + 1, bin, d)
  {}

  lemma SentMore(snaps: seq<Snapshot>, t: nat, bin: nat, since: nat, until: nat, sent: seq<Descriptor>, low: nat,
                 ids: seq<nat>, n: nat)
    requires t < |snaps| && Progress(snaps, t, bin, since, until, sent, low)
             && VisitsIds(bin, snaps[t].db.pull, until, low, ids)
    requires n <= |ids| && (forall i :: 0 <= i < n ==> until == 0 || ids[i] <= until)
    ensures var sent' := sent + Batch(snaps[t].db.pull, bin, ids[..n]);
      Increasing(sent') && Genuine(snaps, t + 1, bin, since, until, sent')
  {
    hide Delivered, Pow256, WasIn;
    var more := Batch(snaps[t].db.pull, bin, ids[..n]);
    var sent' := sent + more;
    assert forall i :: 0 <= i < |sent| ==> sent[i].binID < low;
    forall i | 0 <= i < |sent'| ensures WasIn(snaps, t + 1, bin, sent'[i]) {
      if i < |sent| { Once(snaps, t, bin, sent[i]); } else { JustNow(snaps, t, bin, more[i - |sent|]); }
    }
  }

  /** One iteration, not closing the subscription or closing it. */
  lemma Iterated(ix: Key, snaps: seq<Snapshot>, t: nat, bin: nat, since: nat, until: nat, sent: seq<Descriptor>,
                 low: nat, ids: seq<nat>, n: nat)
    requires Feed(ix, snaps) && t < |snaps| && Progress(snaps, t, bin, since, until, sent, low)
    requires VisitsIds(bin, snaps[t].db.pull, until, low, ids)
    requires n == |ids| || (n == |ids| - 1 && until > 0 && ids[n] > until)
    requires forall i :: 0 <= i < n ==> until == 0 || ids[i] <= until
    ensures var sent' := sent + Batch(snaps[t].db.pull, bin, ids[..n]);
      && Increasing(sent') && Genuine(snaps, t + 1, bin, since, until, sent')
      && (n == |ids| ==> Progress(snaps, t + 1, bin, since, until, sent', if ids == [] then low else ids[n - 1] + 1))
      && (ids != [] && until > 0 && until <= ids[|ids| - 1] ==>
            forall u :: 0 <= u < |snaps| ==> Delivered(snaps[u], bin, since, until, sent'))
  {
    hide Increasing, Genuine, Delivered, Feed, Pow256, Counter;
    var more := Batch(snaps[t].db.pull, bin, ids[..n]);
    var sent' := sent + more;
    SentMore(snaps, t, bin, since, until, sent, low, ids, n);
    ThisDelivered(ix, snaps, t, bin, since, until, sent, low, ids, n);
    forall u | 0 <= u < t ensures Delivered(snaps[u], bin, since, until, sent') {
      StillDelivered(snaps[u], bin, since, until, sent, more);
    }
    CounterReached(ix, snaps, t, bin, since, until, sent, low, ids);
    if ids != [] && until > 0 && until <= ids[|ids| - 1] {
      forall u | t < u < |snaps| ensures Delivered(snaps[u], bin, since, until, sent') {
        NothingLater(ix, snaps, t, u, bin, since, until, sent', ids[|ids| - 1]);
      }
    }
    assert n > 0 ==> sent'[|sent'| - 1].binID == ids[n - 1];
  }

  lemma StillDelivered(s: Snapshot, bin: nat, since: nat, until: nat, sent: seq<Descriptor>, more: seq<Descriptor>)
    requires Delivered(s, bin, since, until, sent)
    ensures Delivered(s, bin, since, until, sent + more)
  {}

  lemma CounterReached(ix: Key, snaps: seq<Snapshot>, t: nat, bin: nat, since: nat, until: nat, sent: seq<Descriptor>,
                       low: nat, ids: seq<nat>)
    requires Feed(ix, snaps) && t < |snaps| && Progress(snaps, t, bin, since, until, sent, low)
    requires VisitsIds(bin, snaps[t].db.pull, until, low, ids)
    ensures ids != [] ==> ids[|ids| - 1] <= Counter(snaps[t].db.binIDs, bin) && low <= ids[|ids| - 1]
    ensures sent != [] ==> low - 1 <= Counter(snaps[t].db.binIDs, bin)
  {
    hide Increasing, Genuine, Delivered, Encodes, Pow256;
    if sent != [] { assert Later(snaps[t - 1].db, snaps[t].db); }
  }

  /** Once the bin's ids have reached until, later snapshots hold nothing new in the range. */
  lemma NothingLater(ix: Key, snaps: seq<Snapshot>, t: nat, u: nat, bin: nat, since: nat, until: nat,
                     sent: seq<Descriptor>, id: nat)
    requires Feed(ix, snaps) && t < u < |snaps| && Delivered(snaps[t], bin, since, until, sent)
    requires 0 < until <= id <= Counter(snaps[t].db.binIDs, bin)
    ensures Delivered(snaps[u], bin, since, until, sent)
  {
    hide Encodes, Binned;
    assert Later(snaps[t].db, snaps[u].db);
  }

  /**
   * The subscription over the snapshots its triggers lead to. What is sent has strictly increasing ids, each an entry
   * of the bin; every entry in the range that any of the snapshots holds is sent, also when the subscription closes
   * early.
   */
  method SubscribePull(ix: Key, base: Bytes, bin: Byte, since: nat, until: nat, snaps: seq<Snapshot>)
    returns (sent: seq<Descriptor>, closed: bool)
    requires Feed(ix, snaps) && 4 <= |base| < 256 && bin <= MAX_PO && since < Pow256(WIDTH)
    ensures Increasing(sent) && Genuine(snaps, |snaps|, bin, since, until, sent)
    ensures forall t :: 0 <= t < |snaps| ==> Delivered(snaps[t], bin, since, until, sent)
    ensures closed ==> until > 0
  {
    hide Feed, Increasing, Genuine, Delivered, Progress, VisitsIds, Cursor, Encodes, Pow256, ProximityOf,
         AddressInBin, PullKeyBytes;
    sent, closed := [], false;
    var sinceItem := None;
    AddressInBinIsInBin(base, bin);
    if since > 0 { sinceItem := Some(PullKeyBytes(ix, ProximityOf(base, AddressInBin(base, bin)), since)); }
    var first := true;
    ghost var low := since;
    Beginning(ix, bin, since, until, sinceItem, snaps);
    for t := 0 to |snaps|
      invariant Progress(snaps, t, bin, since, until, sent, low) && Cursor(ix, bin, since, sinceItem, first, low)
    {
      var count;
      ghost var low';
      sent, sinceItem, count, closed, low' :=
        Iteration(ix, bin, since, until, snaps, t, snaps[t], sent, sinceItem, first, low);
      if closed { return; }
      if count > 0 { first := false; }
      low := low';
    }
    AllDelivered(snaps, bin, since, until, sent, low);
  }

  method Iteration(ix: Key, bin: Byte, since: nat, until: nat, ghost snaps: seq<Snapshot>, ghost t: nat, snap: Snapshot,
                   sent: seq<Descriptor>, sinceItem: Option<Key>, first: bool, ghost low: nat)
    returns (sent': seq<Descriptor>, sinceItem': Option<Key>, count: nat, closed: bool, ghost low': nat)
    requires Feed(ix, snaps) && t < |snaps| && snap == snaps[t]
    requires Progress(snaps, t, bin, since, until, sent, low) && Cursor(ix, bin, since, sinceItem, first, low)
    ensures !closed ==> Progress(snaps, t + 1, bin, since, until, sent', low')
    ensures !closed ==> Cursor(ix, bin, since, sinceItem', first && count == 0, low')
    ensures closed ==> until > 0 && Increasing(sent') && Genuine(snaps, |snaps|, bin, since, until, sent')
    ensures closed ==> forall u :: 0 <= u < |snaps| ==> Delivered(snaps[u], bin, since, until, sent')
  {
    hide Feed, Increasing, Genuine, Delivered, Progress, Cursor, Encodes, Pow256, PullKeyBytes, Visits, NoneBefore,
         VisitsIds, SentIds, Ids, Sorted;
    var stop := (k: Key) => until > 0 && IdOf(ix, k) >= until;
    SnapshotOf(ix, snaps, t);
    StartInBin(ix, bin, since, sinceItem, first, low, snap.keys);
    var index := new Index(snap.keys);
    var visited, failed := index.Iterate(ix + [bin], sinceItem, !first, false, stop);
    VisitedIds(ix, bin, snap, since, until, sinceItem, first, low, stop, visited);
    ghost var ids := Ids(ix, visited);
    ghost var n;
    sent', sinceItem', count, closed, n := Send(ix, bin, until, snap, visited, sent, sinceItem, low);
    low' := if ids == [] then low else ids[|ids| - 1] + 1;
    AfterSend(ix, bin, since, until, snaps, t, sent, sinceItem, first, low, ids, sent', sinceItem', count, closed, n);
  }

  /** Where a subscription stands after the keys of one iteration have been sent. */
  lemma AfterSend(ix: Key, bin: Byte, since: nat, until: nat, snaps: seq<Snapshot>, t: nat, sent: seq<Descriptor>,
                  sinceItem: Option<Key>, first: bool, low: nat, ids: seq<nat>, sent': seq<Descriptor>,
                  sinceItem': Option<Key>, count: nat, closed: bool, n: nat)
    requires Feed(ix, snaps) && t < |snaps| && Progress(snaps, t, bin, since, until, sent, low)
    requires Cursor(ix, bin, since, sinceItem, first, low) && VisitsIds(bin, snaps[t].db.pull, until, low, ids)
    requires SentIds(ix, bin, until, snaps[t].db.pull, ids, sent, sinceItem, sent', sinceItem', count, closed, n)
    ensures var low' := if ids == [] then low else ids[|ids| - 1] + 1;
      !closed ==>
        && Progress(snaps, t + 1, bin, since, until, sent', low')
        && Cursor(ix, bin, since, sinceItem', first && count == 0, low')
    ensures closed ==> until > 0 && Increasing(sent') && Genuine(snaps, |snaps|, bin, since, until, sent')
    ensures closed ==> forall u :: 0 <= u < |snaps| ==> Delivered(snaps[u], bin, since, until, sent')
  {
    hide Feed, Increasing, Genuine, Delivered, Progress, Cursor, Pow256, PullKeyBytes, VisitsIds, Batch;
    Iterated(ix, snaps, t, bin, since, until, sent, low, ids, n);
    if closed {
      GenuineLater(snaps, t + 1, bin, since, until, sent');
    } else {
      if ids != [] { LastFits(bin, snaps[t].db.pull, until, low, ids); }
      CursorNext(ix, bin, since, sinceItem, first, low, sinceItem', count, if ids == [] then low else ids[n - 1] + 1);
    }
  }

  lemma LastFits(bin: nat, pull: map<PullKey, Addr>, until: nat, low: nat, ids: seq<nat>)
    requires VisitsIds(bin, pull, until, low, ids) && ids != []
    ensures ids[|ids| - 1] < Pow256(WIDTH)
  {}

  /** Which of the visited ids a call has sent, and with what it left the loop. */
  ghost predicate SentIds(ix: Key, bin: Byte, until: nat, pull: map<PullKey, Addr>, ids: seq<nat>,
                          sent: seq<Descriptor>, sinceItem: Option<Key>, sent': seq<Descriptor>,
                          sinceItem': Option<Key>, count: nat, closed: bool, n: nat) {
    && (n == |ids| || (n == |ids| - 1 && until > 0 && ids[n] > until))
    && (forall i :: 0 <= i < n ==> until == 0 || ids[i] <= until)
    && sent' == sent + Batch(pull, bin, ids[..n])
    && (closed <==> ids != [] && until > 0 && until <= ids[|ids| - 1])
    && (!closed ==>
          n == count == |ids|
          && sinceItem' == if ids == [] then sinceItem else Some(PullKeyBytes(ix, bin, ids[n - 1])))
  }

  /** The first i ids have been sent and none of them ends the subscription. */
  ghost predicate Sending(ix: Key, bin: Byte, until: nat, pull: map<PullKey, Addr>, ids: seq<nat>,
                          sent: seq<Descriptor>, sinceItem: Option<Key>, sent': seq<Descriptor>,
                          sinceItem': Option<Key>, i: nat) {
    && i <= |ids| && sent' == sent + Batch(pull, bin, ids[..i])
    && sinceItem' == (if i == 0 then sinceItem else Some(PullKeyBytes(ix, bin, ids[i - 1])))
    && forall j :: 0 <= j < i ==> until == 0 || ids[j] < until
  }

  /** The callback of the iteration, over the visited keys. */
  method Send(ix: Key, bin: Byte, until: nat, snap: Snapshot, visited: seq<Key>, sent: seq<Descriptor>,
              sinceItem: Option<Key>, ghost low: nat)
    returns (sent': seq<Descriptor>, sinceItem': Option<Key>, count: nat, closed: bool, ghost n: nat)
    requires VisitsIds(bin, snap.db.pull, until, low, Ids(ix, visited))
    requires forall k :: k in snap.db.pull ==> snap.db.po(snap.db.pull[k]) == k.bin
    ensures SentIds(ix, bin, until, snap.db.pull, Ids(ix, visited), sent, sinceItem, sent', sinceItem', count, closed,
                    n)
  {
    hide PullKeyBytes, IdOf, VisitsIds, Sending, SentIds;
    ghost var ids, pull := Ids(ix, visited), snap.db.pull;
    sent', sinceItem', count, closed := sent, sinceItem, 0, false;
    NothingSent(ix, bin, until, pull, ids, sent, sinceItem);
    for i := 0 to |visited|
      invariant Sending(ix, bin, until, pull, ids, sent, sinceItem, sent', sinceItem', i) && count == i
    {
      n := i;
      var id := IdOf(ix, visited[i]);
      assert id == ids[i];
      SendingNext(ix, bin, until, pull, low, ids, sent, sinceItem, sent', sinceItem', i);
      if until > 0 && id > until {
        closed := true;
        return;
      }
      var addr := snap.db.pull[PullKey(bin, id)];
      sent' := sent' + [Descriptor(addr, id)];
      if until > 0 && id == until {
        closed, n := true, i + 1;
        return;
      }
      count := count + 1;
      sinceItem' := Some(PullKeyBytes(ix, snap.db.po(addr), id));
    }
    n := |ids|;
    EverythingSent(ix, bin, until, pull, ids, sent, sinceItem, sent', sinceItem');
  }

  lemma NothingSent(ix: Key, bin: Byte, until: nat, pull: map<PullKey, Addr>, ids: seq<nat>, sent: seq<Descriptor>,
                    sinceItem: Option<Key>)
    ensures Sending(ix, bin, until, pull, ids, sent, sinceItem, sent, sinceItem, 0)
  {
    assert Batch(pull, bin, ids[..0]) == [];
  }

  lemma EverythingSent(ix: Key, bin: Byte, until: nat, pull: map<PullKey, Addr>, ids: seq<nat>, sent: seq<Descriptor>,
                       sinceItem: Option<Key>, now: seq<Descriptor>, item: Option<Key>)
    requires Sending(ix, bin, until, pull, ids, sent, sinceItem, now, item, |ids|)
    ensures SentIds(ix, bin, until, pull, ids, sent, sinceItem, now, item, |ids|, false, |ids|)
  {
    hide PullKeyBytes, Batch;
  }

  /** What happens with the next id: it is too high, the last one wanted, or one of many. */
  lemma SendingNext(ix: Key, bin: Byte, until: nat, pull: map<PullKey, Addr>, low: nat, ids: seq<nat>,
                    sent: seq<Descriptor>, sinceItem: Option<Key>, now: seq<Descriptor>, item: Option<Key>, i: nat)
    requires VisitsIds(bin, pull, until, low, ids) && i < |ids|
    requires Sending(ix, bin, until, pull, ids, sent, sinceItem, now, item, i)
    ensures PullKey(bin, ids[i]) in pull
    ensures until > 0 && ids[i] > until ==>
              SentIds(ix, bin, until, pull, ids, sent, sinceItem, now, item, i, true, i)
    ensures var next := now + [Descriptor(pull[PullKey(bin, ids[i])], ids[i])];
      && (until > 0 && ids[i] == until ==>
            SentIds(ix, bin, until, pull, ids, sent, sinceItem, next, item, i, true, i + 1))
      && (until == 0 || ids[i] < until ==>
            Sending(ix, bin, until, pull, ids, sent, sinceItem, next, Some(PullKeyBytes(ix, bin, ids[i])), i + 1))
  {
    assert PullKey(bin, ids[i]) in pull && (i < |ids| - 1 ==> until == 0 || ids[i] < until);
    hide VisitsIds, PullKeyBytes, Batch;
    var d := Descriptor(pull[PullKey(bin, ids[i])], ids[i]);
    assert now + [d] == sent + Batch(pull, bin, ids[..i + 1]) by {
      BatchNext(pull, bin, ids, i);
      Associates(sent, Batch(pull, bin, ids[..i]), d);
    }
  }

  lemma Associates(a: seq<Descriptor>, b: seq<Descriptor>, d: Descriptor)
    ensures a + b + [d] == a + (b + [d])
  {}

  lemma BatchNext(pull: map<PullKey, Addr>, bin: nat, ids: seq<nat>, i: nat)
    requires i < |ids| && PullKey(bin, ids[i]) in pull
    ensures Batch(pull, bin, ids[..i + 1]) ==
              Batch(pull, bin, ids[..i]) + [Descriptor(pull[PullKey(bin, ids[i])], ids[i])]
  {
    assert ids[..i + 1] == ids[..i] + [ids[i]];
  }

  lemma Beginning(ix: Key, bin: Byte, since: nat, until: nat, sinceItem: Option<Key>, snaps: seq<Snapshot>)
    requires since < Pow256(WIDTH) && sinceItem == if since > 0 then Some(PullKeyBytes(ix, bin, since)) else None
    ensures Progress(snaps, 0, bin, since, until, [], since) && Cursor(ix, bin, since, sinceItem, true, since)
  {}

  lemma AllDelivered(snaps: seq<Snapshot>, bin: nat, since: nat, until: nat, sent: seq<Descriptor>, low: nat)
    requires Progress(snaps, |snaps|, bin, since, until, sent, low)
    ensures Increasing(sent) && Genuine(snaps, |snaps|, bin, since, until, sent)
    ensures forall t :: 0 <= t < |snaps| ==> Delivered(snaps[t], bin, since, until, sent)
  {}

  lemma GenuineLater(snaps: seq<Snapshot>, n: nat, bin: nat, since: nat, until: nat, sent: seq<Descriptor>)
    requires Genuine(snaps, n, bin, since, until, sent)
    ensures Genuine(snaps, |snaps|, bin, since, until, sent)
  {
  }

  lemma SnapshotOf(ix: Key, snaps: seq<Snapshot>, t: nat)
    requires Feed(ix, snaps) && t < |snaps|
    ensures Encodes(ix, snaps[t].db.pull, snaps[t].keys) && Sorted(snaps[t].keys)
    ensures forall k :: k in snaps[t].db.pull ==> snaps[t].db.po(snaps[t].db.pull[k]) == k.bin
  {}

  /** An iteration starts in the bin, so nothing of another bin comes first. */
  lemma StartInBin(ix: Key, bin: Byte, since: nat, sinceItem: Option<Key>, first: bool, low: nat, keys: seq<Key>)
    requires Cursor(ix, bin, since, sinceItem, first, low)
    ensures NoneBefore(keys, ix + [bin], StartKey(ix, bin, sinceItem), !first)
  {
    hide Less, HasPrefix, PullKeyBytes, Pow256;
    var start := StartKey(ix, bin, sinceItem);
    if sinceItem.Some? {
      var n: nat := if first then since else low - 1;
      BinPrefix(ix, bin, bin, n);
      PrefixRange(start, ix + [bin]);
    }
    forall k: Key | !Less(k, start) ensures !Less(k, ix + [bin]) {
      LessTotal(start, ix + [bin]);
      LessTotal(k, start);
      LessTotal(k, ix + [bin]);
      if Less(k, ix + [bin]) && Less(ix + [bin], start) { LessTrans(k, ix + [bin], start); }
    }
  }

  lemma CursorNext(ix: Key, bin: Byte, since: nat, sinceItem: Option<Key>, first: bool, low: nat,
                   sinceItem': Option<Key>, count: nat, low': nat)
    requires Cursor(ix, bin, since, sinceItem, first, low)
    requires count == 0 ==> sinceItem' == sinceItem && low' == low
    requires count > 0 ==> 0 < low' <= Pow256(WIDTH) && sinceItem' == Some(PullKeyBytes(ix, bin, low' - 1))
    ensures Cursor(ix, bin, since, sinceItem', first && count == 0, low')
  {}
}
