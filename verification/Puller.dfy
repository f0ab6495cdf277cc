/** pkg/puller: historical syncing of one bin of one peer over intervals kept in the state store. */
module Puller {
  import opened IntervalsText
  import opened Intervals

  /** What a call of SyncInterval comes back with. */
  datatype Answer = Synced(top: Uint64) | SyncError

  /** The ranges stored under a key. */
  ghost function RangesAt(store: map<string, string>, key: string): seq<Range> {
    if key in store && Decoded(store[key]).Some? then Decoded(store[key]).value.ranges else []
  }

  ghost predicate BelowTop(r: seq<Range>) { forall k :: 0 <= k < |r| ==> r[k].hi < MAX_UINT64 }

  /** What is stored under a key can be read, starts at 1 and is merged. */
  ghost predicate Sound(store: map<string, string>, key: string) {
    key in store ==>
      && Decoded(store[key]).Some? && Decoded(store[key]).value.lower == 1
      && WellFormed(1, RangesAt(store, key)) && BelowTop(RangesAt(store, key))
  }

  /** A peer answers with a top no lower than what was asked for, and below the last uint64. */
  ghost predicate Honest(sync: (nat, Uint64) -> Answer) {
    forall n, s: Uint64 :: sync(n, s).Synced? ==> s <= sync(n, s).top < MAX_UINT64
  }

  class Puller {
    var statestore: map<string, string>

    method GetOrCreateInterval(key: string) returns (i: Intervals, ok: bool)
      modifies this
      ensures fresh(i)
      ensures ok <==> key !in old(statestore) || Decoded(old(statestore)[key]).Some?
      ensures key in old(statestore) ==> statestore == old(statestore)
      ensures key !in old(statestore) ==> statestore == old(statestore)[key := Encoded(1, [])]
      ensures Sound(old(statestore), key) ==>
                ok && Sound(statestore, key) && RangesAt(statestore, key) == RangesAt(old(statestore), key)
      ensures Sound(old(statestore), key) ==> i.start == 1 && i.ranges == RangesAt(statestore, key)
    {
      i := new Intervals(0);
      if key in statestore {
        ok := i.UnmarshalBinary(statestore[key]);
        SoundParts(statestore, key);
      } else {
        i := new Intervals(1);
        var data := i.MarshalBinary();
        statestore := statestore[key := data];
        ok := true;
        SoundEncoded(statestore, key, []);
      }
    }

    method NextPeerInterval(key: string) returns (s: Uint64, ok: bool)
      modifies this
      ensures forall k :: k in old(statestore) ==> k in statestore && statestore[k] == old(statestore)[k]
      ensures Sound(old(statestore), key) ==>
                && ok && Sound(statestore, key) && RangesAt(statestore, key) == RangesAt(old(statestore), key)
                && FirstMissing(1, RangesAt(statestore, key), s)
    {
      var i;
      i, ok := GetOrCreateInterval(key);
      if !ok { return 0, false; }
      SoundParts(statestore, key);
      var e, empty;
      s, e, empty := i.Next(0);
    }

    method AddPeerInterval(key: string, from: Uint64, end: Uint64) returns (ok: bool)
      modifies this
      ensures forall k :: k in old(statestore) && k != key ==> k in statestore && statestore[k] == old(statestore)[k]
      ensures Sound(old(statestore), key) ==> ok
      ensures Sound(old(statestore), key) && 1 <= from <= end < MAX_UINT64
              && !Covers(RangesAt(old(statestore), key), from) ==>
                && Sound(statestore, key)
                && CoversSum(RangesAt(statestore, key), RangesAt(old(statestore), key), from, end)
    {
      var i;
      i, ok := GetOrCreateInterval(key);
      if !ok { return; }
      SoundParts(statestore, key);
      ghost var r := i.ranges;
      if Sound(old(statestore), key) && 1 <= from <= end && !Covers(r, from) { NotInside(r, from, end); }
      i.Add(from, end);
      var data := i.MarshalBinary();
      statestore := statestore[key := data];
      if Sound(old(statestore), key) && 1 <= from <= end < MAX_UINT64 && !Covers(r, from) {
        StaysBelow(r, from, end, i.ranges);
        SoundEncoded(statestore, key, i.ranges);
      }
    }

    /**
     * Fills the gaps up to the cursor. It ends; when it ends normally everything up to the cursor is there;
     * what is recorded is what was recorded before and what the peer confirmed, and no start is asked for twice.
     */
    method HistSyncWorker(key: string, cur: Uint64, quit: nat -> bool, sync: (nat, Uint64) -> Answer)
      returns (finished: bool, ghost pulled: seq<Range>)
      requires Sound(statestore, key) && Honest(sync)
      modifies this
      ensures Sound(statestore, key)
      ensures forall k :: k in old(statestore) && k != key ==> k in statestore && statestore[k] == old(statestore)[k]
      ensures finished ==> Filled(RangesAt(statestore, key), cur + 1)
      ensures !finished ==> quit(|pulled|) || exists s: Uint64 :: sync(|pulled|, s) == SyncError
      ensures Recorded(RangesAt(statestore, key), RangesAt(old(statestore), key), pulled)
      ensures Confirmed(pulled, sync, cur)
    {
      hide Sound, RangesAt, Filled, Recorded, Confirmed;
      pulled := [];
      var iter := 0;
      ghost var next := 1;
      Nothing(RangesAt(statestore, key), sync, cur);
      while true
        invariant Sound(statestore, key) && 1 <= next && iter == |pulled|
        invariant forall k :: k in old(statestore) && k != key ==>
                    k in statestore && statestore[k] == old(statestore)[k]
        invariant Filled(RangesAt(statestore, key), next)
        invariant Recorded(RangesAt(statestore, key), RangesAt(old(statestore), key), pulled)
        invariant Confirmed(pulled, sync, cur) && (pulled != [] ==> pulled[|pulled| - 1].hi < next)
        decreases cur - next
      {
        if quit(iter) { return false, pulled; }
        var s, ok := NextPeerInterval(key);
        if !ok { return false, pulled; }
        ghost var r := RangesAt(statestore, key);
        AtLeast(r, next, s);
        if s > cur {
          FilledUpTo(r, s, cur + 1);
          return true, pulled;
        }
        var answer := sync(iter, s);
        if answer.SyncError? { return false, pulled; }
        ok := AddPeerInterval(key, s, answer.top);
        if !ok { return false, pulled; }
        Advance(RangesAt(statestore, key), r, RangesAt(old(statestore), key), pulled, sync, cur, s, answer.top);
        pulled := pulled + [Range(s, answer.top)];
        next := answer.top + 1;
        iter := iter + 1;
      }
    }
  }

  /** Everything from 1 to below n is recorded. */
  ghost predicate Filled(r: seq<Range>, n: int) { forall x :: 1 <= x < n ==> Covers(r, x) }

  /** What is recorded now is what was, and the pulled ranges. */
  ghost predicate Recorded(now: seq<Range>, was: seq<Range>, pulled: seq<Range>) {
    forall x :: Covers(now, x) <==> Covers(was, x) || Covers(pulled, x)
  }

  /** Every pulled range is one the peer answered, in increasing order and starting no later than the cursor. */
  ghost predicate Confirmed(pulled: seq<Range>, sync: (nat, Uint64) -> Answer, cur: Uint64) {
    && (forall k :: 0 <= k < |pulled| ==> sync(k, pulled[k].lo) == Synced(pulled[k].hi) && 1 <= pulled[k].lo <= cur)
    && (forall k, m :: 0 <= k < m < |pulled| ==> pulled[k].hi < pulled[m].lo)
  }

  lemma Nothing(r: seq<Range>, sync: (nat, Uint64) -> Answer, cur: Uint64)
    ensures Filled(r, 1) && Recorded(r, r, []) && Confirmed([], sync, cur)
  {}

  lemma AtLeast(r: seq<Range>, next: int, s: int)
    requires FirstMissing(1, r, s) && Filled(r, next)
    ensures next <= s
  {}

  lemma FilledUpTo(r: seq<Range>, s: int, n: int)
    requires FirstMissing(1, r, s) && n <= s
    ensures Filled(r, n)
  {}

  lemma Advance(now: seq<Range>, r: seq<Range>, was: seq<Range>, pulled: seq<Range>,
                sync: (nat, Uint64) -> Answer, cur: Uint64, s: Uint64, top: Uint64)
    requires FirstMissing(1, r, s) && s <= top && s <= cur && CoversSum(now, r, s, top)
    requires Recorded(r, was, pulled) && Confirmed(pulled, sync, cur) && sync(|pulled|, s) == Synced(top)
    requires Honest(sync) && (pulled != [] ==> pulled[|pulled| - 1].hi < s)
    ensures Filled(now, top + 1) && Recorded(now, was, pulled + [Range(s, top)])
    ensures Confirmed(pulled + [Range(s, top)], sync, cur)
  {
    Ordered(pulled, sync, cur, s, top);
    PulledMore(pulled, Range(s, top));
    hide Covers;
  }

  lemma Ordered(pulled: seq<Range>, sync: (nat, Uint64) -> Answer, cur: Uint64, s: Uint64, top: Uint64)
    requires Confirmed(pulled, sync, cur) && sync(|pulled|, s) == Synced(top) && 1 <= s <= cur
    requires Honest(sync) && (pulled != [] ==> pulled[|pulled| - 1].hi < s)
    ensures Confirmed(pulled + [Range(s, top)], sync, cur)
  {
    assert forall k :: 0 <= k < |pulled| ==> pulled[k].lo <= pulled[k].hi < s by {
      forall k | 0 <= k < |pulled| ensures pulled[k].lo <= pulled[k].hi < s {
        assert sync(k, pulled[k].lo).Synced?;
        if k < |pulled| - 1 { assert sync(|pulled| - 1, pulled[|pulled| - 1].lo).Synced?; }
      }
    }
  }

  lemma SoundParts(store: map<string, string>, key: string)
    ensures Sound(store, key) ==> !Full(1, RangesAt(store, key)) && WellFormed(1, RangesAt(store, key))
    ensures Sound(store, key) && RangesAt(store, key) != [] ==>
              RangesAt(store, key)[|RangesAt(store, key)| - 1].hi < MAX_UINT64
  {}

  lemma SoundEncoded(store: map<string, string>, key: string, r: seq<Range>)
    requires key in store && store[key] == Encoded(1, r) && WellFormed(1, r) && BelowTop(r)
    ensures Sound(store, key) && RangesAt(store, key) == r
  {
    DecodeEncode(1, r);
  }

  /** A range whose start is missing is not inside a stored one, so add keeps the list merged. */
  lemma NotInside(r: seq<Range>, from: Uint64, end: Uint64)
    requires 1 <= from <= end && !Covers(r, from)
    ensures end < MAX_UINT64 ==> AddKeeps(1, r, from, end)
  {}

  lemma StaysBelow(r: seq<Range>, from: Uint64, end: Uint64, now: seq<Range>)
    requires BelowTop(r) && from <= end < MAX_UINT64 && CoversSum(now, r, from, end) && WellFormed(1, now)
    ensures BelowTop(now)
  {
    forall k | 0 <= k < |now| ensures now[k].hi < MAX_UINT64 {
      assert Covers(now, now[k].hi);
    }
  }

  lemma PulledMore(pulled: seq<Range>, g: Range)
    ensures forall x :: Covers(pulled + [g], x) <==> Covers(pulled, x) || g.lo <= x <= g.hi
  {
    forall x ensures Covers(pulled + [g], x) <==> Covers(pulled, x) || g.lo <= x <= g.hi {
      CoversConcat(pulled, [g], x);
      assert Covers([g], x) <==> g.lo <= x <= g.hi by { assert [g][0] == g; }
    }
  }
}
