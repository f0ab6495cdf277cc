/** A pull subscription to a running store sends what is put into it. */
module SubscriptionRun {
  import opened Common
  import opened Localstore
  import opened LocalstorePutInv
  import opened LocalstoreGc
  import opened LocalstoreBins
  import opened LocalstoreEntries
  import opened LocalstoreListed
  import opened Shed
  import opened Uints
  import opened PullKeys
  import opened Subscription

  /** A step before moment m stored the chunk, not only as a cached one, and it has been stored ever since. */
  ghost predicate FedBefore(states: seq<Store>, ops: seq<Op>, m: nat, a: Addr)
    requires |states| == |ops| + 1 && m <= |ops|
  {
    exists i :: 0 <= i < m && Feeds(states[i], ops[i], a) && forall j :: i < j <= m ==> a in states[j].db.core.data
  }

  /** Snapshots taken at moments of the run, in order. */
  ghost predicate TakenAt(ix: Key, states: seq<Store>, moments: seq<nat>, snaps: seq<Snapshot>) {
    && |moments| == |snaps| && (forall t :: 0 <= t < |moments| ==> moments[t] < |states|)
    && (forall t, u :: 0 <= t < u < |moments| ==> moments[t] <= moments[u])
    && (forall t :: 0 <= t < |snaps| ==>
          snaps[t].db == states[moments[t]].db && Encodes(ix, snaps[t].db.pull, snaps[t].keys))
  }

  /** A safe run from a right index is one of the runs a feed comes from. */
  lemma SafeIsAnyRun(states: seq<Store>, ops: seq<Op>, clocks: seq<int>)
    requires StoreRun(states, ops, clocks) && Indexed(states[0].db)
    ensures AnyRun(states, ops)
  {
    hide Do, Safe, StoreInv, Binned, Clock;
  }

  lemma FedIsSent(ix: Key, states: seq<Store>, ops: seq<Op>, clocks: seq<int>, moments: seq<nat>, snaps: seq<Snapshot>,
                  t: nat, a: Addr, bin: nat, since: nat, until: nat, sent: seq<Descriptor>)
    requires StoreRun(states, ops, clocks) && Indexed(states[0].db) && TakenAt(ix, states, moments, snaps)
    requires t < |snaps| && FedBefore(states, ops, moments[t], a) && Delivered(snaps[t], bin, since, until, sent)
    ensures a in snaps[t].db.core.data
    ensures var k := PullKeyOf(snaps[t].db, a);
      k.bin == bin && InRange(since, until, k.binID) ==> Descriptor(a, k.binID) in sent
  {
    hide StoreInv, Do, Safe, Clock, Feeds, Indexed, Encodes;
    var i :| 0 <= i < moments[t] && Feeds(states[i], ops[i], a)
             && forall j :: i < j <= moments[t] ==> a in states[j].db.core.data;
    ListedWhileStored(states, ops, clocks, i, moments[t], a);
  }

  /**
  SubscribePull over snapshots of any safe run: each chunk put before a snapshot, in any mode but PutRequestCache, and
  stored ever since, is sent with its id, if it is of the bin and its id is in the range.
  */
  method SubscribeToRun(ix: Key, base: Bytes, bin: Byte, since: nat, until: nat, snaps: seq<Snapshot>,
                        ghost states: seq<Store>, ghost ops: seq<Op>, ghost clocks: seq<int>, ghost moments: seq<nat>)
    returns (sent: seq<Descriptor>, closed: bool)
    requires 4 <= |base| < 256 && bin <= MAX_PO && since < Pow256(WIDTH)
    requires StoreRun(states, ops, clocks) && Indexed(states[0].db) && TakenAt(ix, states, moments, snaps)
    ensures forall t, a :: 0 <= t < |snaps| && FedBefore(states, ops, moments[t], a) ==>
              && a in snaps[t].db.core.data
              && var k := PullKeyOf(snaps[t].db, a);
              k.bin == bin && InRange(since, until, k.binID) ==> Descriptor(a, k.binID) in sent
  {
    hide StoreRun, Indexed, FedBefore, Delivered, Feed, Encodes, Increasing, Genuine, AnyRun;
    SafeIsAnyRun(states, ops, clocks);
    assert |states| == |ops| + 1 by { RunLength(states, ops, clocks); }
    RunIsFeed(ix, states, ops, moments, snaps);
    sent, closed := SubscribePull(ix, base, bin, since, until, snaps);
    forall t, a | 0 <= t < |snaps| && FedBefore(states, ops, moments[t], a)
      ensures && a in snaps[t].db.core.data
              && var k := PullKeyOf(snaps[t].db, a);
              k.bin == bin && InRange(since, until, k.binID) ==> Descriptor(a, k.binID) in sent
    {
      FedIsSent(ix, states, ops, clocks, moments, snaps, t, a, bin, since, until, sent);
    }
  }

  lemma RunLength(states: seq<Store>, ops: seq<Op>, clocks: seq<int>)
    requires StoreRun(states, ops, clocks)
    ensures |states| == |ops| + 1
  {}
}
