/** pkg/pullsync: one offer, want, deliver exchange between two nodes. */
module Pullsync {
  import opened Common
  import opened BitVector

  const HASH_SIZE := 32

  datatype Chunk = Chunk(addr: Bytes, data: Bytes, stamp: Bytes)

  datatype Outcome = Topmost(top: nat) | UnsolicitedChunk | InvalidChunk | ReadError | StampError

  /** How many hashes an offer holds, and whether it holds only whole ones. */
  function HashCount(hashes: Bytes): nat { |hashes| / HASH_SIZE }

  predicate Whole(hashes: Bytes) { |hashes| % HASH_SIZE == 0 }

  function HashAt(hashes: Bytes, i: nat): Bytes
    requires i < HashCount(hashes)
  {
    hashes[HASH_SIZE * i..HASH_SIZE * (i + 1)]
  }

  /** Of the first n offered hashes, those not in the store, in the order of the offer. */
  ghost function Missing(hashes: Bytes, have: set<Bytes>, n: nat): seq<Bytes>
    requires n <= HashCount(hashes)
  {
    if n == 0 then []
    else Missing(hashes, have, n - 1) + (if HashAt(hashes, n - 1) in have then [] else [HashAt(hashes, n - 1)])
  }

  lemma NoneMissing(hashes: Bytes, have: set<Bytes>)
    ensures Missing(hashes, have, 0) == []
  {}

  lemma MissingNext(hashes: Bytes, have: set<Bytes>, n: nat)
    requires n < HashCount(hashes)
    ensures HashAt(hashes, n) in have ==> Missing(hashes, have, n + 1) == Missing(hashes, have, n)
    ensures HashAt(hashes, n) !in have ==>
              Missing(hashes, have, n + 1) == Missing(hashes, have, n) + [HashAt(hashes, n)]
  {}

  ghost predicate Distinct(s: seq<Bytes>) { forall i, j :: 0 <= i < j < |s| ==> s[i] != s[j] }

  class Syncer {
    var store: map<Bytes, Chunk>
    const valid: Chunk -> bool
    const stamped: Chunk -> bool

    constructor (store: map<Bytes, Chunk>, valid: Chunk -> bool, stamped: Chunk -> bool)
      ensures this.store == store && this.valid == valid && this.stamped == stamped
    {
      this.store := store;
      this.valid := valid;
      this.stamped := stamped;
    }

    /** Serving side: the addresses of an interval behind each other. */
    method MakeOffer(addrs: seq<Bytes>) returns (hashes: Bytes)
      requires forall i :: 0 <= i < |addrs| ==> |addrs[i]| == HASH_SIZE
      ensures |hashes| == HASH_SIZE * |addrs| && Whole(hashes) && HashCount(hashes) == |addrs|
      ensures hashes == [] <==> addrs == []
      ensures forall i :: 0 <= i < |addrs| ==> HashAt(hashes, i) == addrs[i]
    {
      hashes := [];
      for k := 0 to |addrs|
        invariant |hashes| == HASH_SIZE * k
        invariant forall i :: 0 <= i < k ==> HashAt(hashes, i) == addrs[i]
      {
        ghost var was := hashes;
        hashes := hashes + addrs[k];
        forall i | 0 <= i < k + 1 ensures HashAt(hashes, i) == addrs[i] {
          if i < k { assert HashAt(hashes, i) == HashAt(was, i); }
        }
      }
    }

    /** Asking side: marks what is missing; nothing is changed. An offer that is empty or cut short is not answered. */
    method Want(hashes: Bytes) returns (ok: bool, bits: Bytes, want: set<Bytes>, ctr: nat)
      ensures ok <==> hashes != [] && |hashes| % HASH_SIZE == 0
      ensures ok ==> |bits| == HashCount(hashes) / 8 + 1 && Marks(bits, hashes, store.Keys)
      ensures ok ==> want == (set a | a in Missing(hashes, store.Keys, HashCount(hashes)))
      ensures ok ==> ctr == |Missing(hashes, store.Keys, HashCount(hashes))|
    {
      hide HashAt, Missing, Bit;
      ok, bits, want, ctr := false, [], {}, 0;
      if !Whole(hashes) || |hashes| == 0 { return; }
      var l := HashCount(hashes);
      var bv := BitVector.New(l);
      NoneMissing(hashes, store.Keys);
      for i := 0 to l
        invariant bv.Valid() && bv.len == l && fresh(bv.b)
        invariant forall j :: 0 <= j < l ==> (Bit(bv.b[..], j) <==> j < i && HashAt(hashes, j) !in store)
        invariant want == (set a | a in Missing(hashes, store.Keys, i)) && ctr == |Missing(hashes, store.Keys, i)|
      {
        var a := HashAt(hashes, i);
        MissingNext(hashes, store.Keys, i);
        if a !in store {
          want := want + {a};
          ctr := ctr + 1;
          bv.Set(i);
        }
      }
      ok, bits := true, bv.b[..];
    }

    /** Serving side: the chunks whose bits are set, in the order of the offer. */
    method ProcessWant(hashes: Bytes, bits: Bytes) returns (chs: Option<seq<Chunk>>)
      requires Whole(hashes)
      ensures hashes == [] || 8 * |bits| < HashCount(hashes) ==> chs.None?
      ensures hashes != [] && HashCount(hashes) <= 8 * |bits| ==>
                var asked := Selected(hashes, bits, HashCount(hashes));
                && (chs.Some? <==> forall i :: 0 <= i < |asked| ==> asked[i] in store)
                && (chs.Some? ==> chs.value == Picked(store, asked))
    {
      var l := HashCount(hashes);
      var b := new bv8[|bits|](i requires 0 <= i < |bits| => bits[i]);
      assert b[..] == bits;
      var bv := BitVector.NewFromBytes(b, l);
      if bv == null { return None; }
      var addrs := [];
      hide HashAt, HashCount, Bit;
      for i := 0 to l
        invariant bv.b[..] == bits && addrs == Selected(hashes, bits, i)
      {
        var isSet := bv.Get(i);
        if isSet { addrs := addrs + [HashAt(hashes, i)]; }
        SelectedNext(hashes, bits, i);
      }
      hide Selected;
      if forall i :: 0 <= i < |addrs| ==> addrs[i] in store {
        chs := Some(Picked(store, addrs));
      } else {
        chs := None;
      }
    }

    /** Asking side: reads ctr deliveries and stores them as one batch. Nothing unasked, invalid or unstamped is
        stored, whoever the peer is. */
    method Receive(deliveries: seq<Chunk>, asked: set<Bytes>, ctr: nat, top: nat) returns (r: Outcome, ghost n: nat)
      modifies `store
      ensures Reading(deliveries, asked, ctr, top, valid, stamped, r, n)
      ensures r.UnsolicitedChunk? || r.InvalidChunk? ==> store == old(store)
      ensures !r.UnsolicitedChunk? && !r.InvalidChunk? ==>
                store == PutAll(old(store), OnlyStamped(deliveries[..n], stamped))
      ensures r.Topmost? && ctr == |asked| && asked !! old(store).Keys ==>
                (asked <= store.Keys <==> forall i :: 0 <= i < ctr ==> stamped(deliveries[i]))
    {
      hide Accepted, OnlyStamped, PutAll, Addresses;
      var chunksToPut;
      r, chunksToPut, n := ReadAll(deliveries, asked, ctr, top);
      if r.UnsolicitedChunk? || r.InvalidChunk? { return; }
      if ctr == |asked| && asked !! store.Keys && n == ctr {
        HeldIfStamped(store, deliveries[..n], asked, valid, stamped);
      }
      store := PutAll(store, chunksToPut);
    }

    /** The loop that reads the deliveries. */
    method ReadAll(deliveries: seq<Chunk>, asked: set<Bytes>, ctr: nat, top: nat)
      returns (r: Outcome, chunksToPut: seq<Chunk>, ghost n: nat)
      ensures Reading(deliveries, asked, ctr, top, valid, stamped, r, n)
      ensures chunksToPut == OnlyStamped(deliveries[..n], stamped)
    {
      hide Accepted, OnlyStamped, Addresses;
      var want := asked;
      var left := ctr;
      n := 0;
      var err := false;
      chunksToPut := [];
      NothingAccepted(deliveries, asked, valid, stamped);
      while left > 0
        invariant left == ctr - n && n <= |deliveries|
        invariant Accepted(deliveries[..n], asked, valid, stamped) && want == asked - Addresses(deliveries[..n])
        invariant chunksToPut == OnlyStamped(deliveries[..n], stamped)
        invariant err <==> n > 0 && !stamped(deliveries[n - 1])
      {
        if ctr - left == |deliveries| {
          r := ReadError;
          return;
        }
        var chunk := deliveries[ctr - left];
        if chunk.addr !in want {
          r := UnsolicitedChunk;
          return;
        }
        want := want - {chunk.addr};
        if stamped(chunk) && !valid(chunk) {
          r := InvalidChunk;
          return;
        }
        AcceptedNext(deliveries, n, asked, valid, stamped);
        err := !stamped(chunk);
        if stamped(chunk) { chunksToPut := chunksToPut + [chunk]; }
        n := n + 1;
        left := left - 1;
      }
      r := if err then StampError else Topmost(top);
    }
  }

  /** How reading ends after n accepted deliveries, whoever the peer is. */
  ghost predicate Reading(ds: seq<Chunk>, asked: set<Bytes>, ctr: nat, top: nat,
                          valid: Chunk -> bool, stamped: Chunk -> bool, r: Outcome, n: nat) {
    && n <= |ds| && n <= ctr && Accepted(ds[..n], asked, valid, stamped)
    && match r
       case Topmost(t) => n == ctr && t == top && (n > 0 ==> stamped(ds[n - 1]))
       case UnsolicitedChunk => n < ctr && n < |ds| && ds[n].addr !in asked - Addresses(ds[..n])
       case InvalidChunk =>
         n < ctr && n < |ds| && ds[n].addr in asked - Addresses(ds[..n]) && stamped(ds[n]) && !valid(ds[n])
       case ReadError => n == |ds| < ctr
       case StampError => n == ctr > 0 && !stamped(ds[n - 1])
  }

  ghost function Addresses(ds: seq<Chunk>): set<Bytes> { set i | 0 <= i < |ds| :: ds[i].addr }

  /** Deliveries that were read without a fatal error. */
  ghost predicate Accepted(ds: seq<Chunk>, asked: set<Bytes>, valid: Chunk -> bool, stamped: Chunk -> bool) {
    && (forall i :: 0 <= i < |ds| ==> ds[i].addr in asked && (stamped(ds[i]) ==> valid(ds[i])))
    && (forall i, j :: 0 <= i < j < |ds| ==> ds[i].addr != ds[j].addr)
  }

  function OnlyStamped(ds: seq<Chunk>, stamped: Chunk -> bool): seq<Chunk> {
    if ds == [] then []
    else OnlyStamped(ds[..|ds| - 1], stamped) + (if stamped(ds[|ds| - 1]) then [ds[|ds| - 1]] else [])
  }

  function PutAll(store: map<Bytes, Chunk>, cs: seq<Chunk>): map<Bytes, Chunk> {
    if cs == [] then store else PutAll(store, cs[..|cs| - 1])[cs[|cs| - 1].addr := cs[|cs| - 1]]
  }

  /** The addresses in a store after a batch. */
  lemma {:induction false} PutKeys(store: map<Bytes, Chunk>, ds: seq<Chunk>, stamped: Chunk -> bool, a: Bytes)
    ensures a in PutAll(store, OnlyStamped(ds, stamped)) <==>
              a in store || exists i :: 0 <= i < |ds| && stamped(ds[i]) && ds[i].addr == a
  {
    if ds != [] {
      var n := |ds| - 1;
      PutKeys(store, ds[..n], stamped, a);
      var cs := OnlyStamped(ds[..n], stamped);
      if stamped(ds[n]) {
        assert OnlyStamped(ds, stamped) == cs + [ds[n]] && (cs + [ds[n]])[..|cs|] == cs;
      } else {
        assert OnlyStamped(ds, stamped) == cs;
      }
      assert forall i :: 0 <= i < n ==> ds[..n][i] == ds[i];
    }
  }

  /** As many accepted deliveries as asked hashes are all of them; those without a stamp are not held. */
  lemma HeldIfStamped(store: map<Bytes, Chunk>, ds: seq<Chunk>, asked: set<Bytes>, valid: Chunk -> bool,
                      stamped: Chunk -> bool)
    requires Accepted(ds, asked, valid, stamped) && |ds| == |asked| && asked !! store.Keys
    ensures asked <= PutAll(store, OnlyStamped(ds, stamped)).Keys <==> forall i :: 0 <= i < |ds| ==> stamped(ds[i])
  {
    AllDelivered(ds, asked, valid, stamped);
    var now := PutAll(store, OnlyStamped(ds, stamped));
    forall i | 0 <= i < |ds| ensures ds[i].addr in now <==> stamped(ds[i]) {
      PutKeys(store, ds, stamped, ds[i].addr);
    }
    hide PutAll, OnlyStamped;
    forall a | a in asked ensures exists i :: 0 <= i < |ds| && ds[i].addr == a { assert a in Addresses(ds); }
  }

  lemma {:induction false} AllDelivered(ds: seq<Chunk>, asked: set<Bytes>, valid: Chunk -> bool, stamped: Chunk -> bool)
    requires Accepted(ds, asked, valid, stamped) && |ds| == |asked|
    ensures Addresses(ds) == asked
  {
    if ds == [] {
    } else {
      var n := |ds| - 1;
      assert ds[..n + 1] == ds;
      assert Accepted(ds[..n], asked - {ds[n].addr}, valid, stamped);
      AllDelivered(ds[..n], asked - {ds[n].addr}, valid, stamped);
      forall a | a in asked ensures a in Addresses(ds) {
        if a == ds[n].addr { assert ds[n].addr in Addresses(ds); } else {
          assert a in Addresses(ds[..n]);
          var i :| 0 <= i < n && ds[..n][i].addr == a;
          assert ds[i].addr == a;
        }
      }
    }
  }

  lemma NothingAccepted(ds: seq<Chunk>, asked: set<Bytes>, valid: Chunk -> bool, stamped: Chunk -> bool)
    ensures Accepted(ds[..0], asked, valid, stamped) && OnlyStamped(ds[..0], stamped) == [] && Addresses(ds[..0]) == {}
  {}

  lemma AcceptedNext(ds: seq<Chunk>, n: nat, asked: set<Bytes>, valid: Chunk -> bool, stamped: Chunk -> bool)
    requires n < |ds| && Accepted(ds[..n], asked, valid, stamped)
    requires ds[n].addr in asked - Addresses(ds[..n]) && (stamped(ds[n]) ==> valid(ds[n]))
    ensures Accepted(ds[..n + 1], asked, valid, stamped)
    ensures Addresses(ds[..n + 1]) == Addresses(ds[..n]) + {ds[n].addr}
    ensures OnlyStamped(ds[..n + 1], stamped)
            == OnlyStamped(ds[..n], stamped) + (if stamped(ds[n]) then [ds[n]] else [])
  {
    assert ds[..n + 1][..n] == ds[..n];
    assert forall i :: 0 <= i < n ==> ds[..n][i] == ds[i];
    forall a | a in Addresses(ds[..n + 1]) ensures a in Addresses(ds[..n]) + {ds[n].addr} {
      var i :| 0 <= i < n + 1 && ds[..n + 1][i].addr == a;
      if i < n { assert ds[..n][i].addr == a; }
    }
    forall a | a in Addresses(ds[..n]) + {ds[n].addr} ensures a in Addresses(ds[..n + 1]) {
      if a == ds[n].addr { assert ds[..n + 1][n].addr == a; } else {
        var i :| 0 <= i < n && ds[..n][i].addr == a;
        assert ds[..n + 1][i].addr == a;
      }
    }
    forall i | 0 <= i < n ensures ds[i].addr != ds[n].addr {
      assert ds[..n][i].addr in Addresses(ds[..n]);
    }
  }

  /** The hashes whose bits are set. */
  ghost function Selected(hashes: Bytes, bits: Bytes, n: nat): seq<Bytes>
    requires n <= HashCount(hashes) && n <= 8 * |bits|
  {
    if n == 0 then []
    else Selected(hashes, bits, n - 1) + (if Bit(bits, n - 1) then [HashAt(hashes, n - 1)] else [])
  }

  lemma SelectedNext(hashes: Bytes, bits: Bytes, n: nat)
    requires n < HashCount(hashes) && n < 8 * |bits|
    ensures Selected(hashes, bits, n + 1) ==
              if Bit(bits, n) then Selected(hashes, bits, n) + [HashAt(hashes, n)] else Selected(hashes, bits, n)
  {}

  /** Bits written by the asking side select exactly what it misses. */
  lemma {:induction false} SelectedIsMissing(hashes: Bytes, bits: Bytes, have: set<Bytes>, n: nat)
    requires n <= HashCount(hashes) && Marks(bits, hashes, have)
    ensures Selected(hashes, bits, n) == Missing(hashes, have, n)
  {
    if n > 0 { SelectedIsMissing(hashes, bits, have, n - 1); }
  }

  /** The bits that are set are those of hashes outside the store. */
  ghost predicate Marks(bits: Bytes, hashes: Bytes, have: set<Bytes>) {
    HashCount(hashes) <= 8 * |bits| &&
    forall i :: 0 <= i < HashCount(hashes) ==> (Bit(bits, i) <==> HashAt(hashes, i) !in have)
  }

  function Picked(store: map<Bytes, Chunk>, addrs: seq<Bytes>): (chs: seq<Chunk>)
    requires forall i :: 0 <= i < |addrs| ==> addrs[i] in store
    ensures |chs| == |addrs|
  {
    seq(|addrs|, i requires 0 <= i < |addrs| => store[addrs[i]])
  }

  /** No address the asking side misses is offered twice. */
  ghost predicate MissingOnce(addrs: seq<Bytes>, have: set<Bytes>) {
    forall i, j :: 0 <= i < j < |addrs| && addrs[i] == addrs[j] ==> addrs[i] in have
  }

  /** What a serving node holds for the addresses of an interval is what the asking node accepts. */
  ghost predicate Serves(store: map<Bytes, Chunk>, addrs: seq<Bytes>, valid: Chunk -> bool, stamped: Chunk -> bool) {
    forall i :: 0 <= i < |addrs| ==>
      |addrs[i]| == HASH_SIZE && addrs[i] in store && store[addrs[i]].addr == addrs[i] && valid(store[addrs[i]])
      && stamped(store[addrs[i]])
  }

  /**
   * How an exchange with an honest peer ends. It succeeds exactly when no missing address is offered twice, and then
   * the asking side holds every offered chunk as the peer has it and has changed nothing else.
   */
  ghost predicate Exchanged(was: map<Bytes, Chunk>, now: map<Bytes, Chunk>, served: map<Bytes, Chunk>,
                            addrs: seq<Bytes>, top: nat, r: Outcome) {
    && (r == Topmost(top) <==> MissingOnce(addrs, was.Keys))
    && (r == Topmost(top) || (r == UnsolicitedChunk && now == was))
    && (forall a :: a in was ==> a in now && now[a] == was[a])
    && (r == Topmost(top) ==>
          && now.Keys == was.Keys + (set a | a in addrs)
          && forall a :: a in addrs && a !in was ==> a in served && now[a] == served[a])
  }

  method SyncInterval(client: Syncer, server: Syncer, addrs: seq<Bytes>, top: nat) returns (r: Outcome)
    requires client != server && Serves(server.store, addrs, client.valid, client.stamped)
    modifies client
    ensures Exchanged(old(client.store), client.store, server.store, addrs, top, r)
  {
    Lengths(server.store, addrs, client.valid, client.stamped);
    hide Missing, Selected, OnlyStamped, PutAll, Marks, HashAt, HashCount, Whole, Serves, Picked, Exchanged, Reading,
         Asked;
    var hashes := server.MakeOffer(addrs);
    if hashes == [] {
      NothingOffered(client.store, server.store, addrs, top);
      return Topmost(top);
    }
    var ok, bits, want, ctr := client.Want(hashes);
    ghost var was := client.store;
    ghost var asked := Missing(hashes, was.Keys, |addrs|);
    AskedFacts(hashes, bits, addrs, was.Keys, server.store, client.valid, client.stamped);
    AskedInStore(asked, addrs, was.Keys, server.store, client.valid, client.stamped);
    var chs := server.ProcessWant(hashes, bits);
    ghost var n;
    r, n := client.Receive(chs.value, want, ctr, top);
    Concluded(was, client.store, server.store, addrs, asked, client.valid, client.stamped, top, r, n);
  }

  /** Of the offered addresses, asked are the missing ones. */
  ghost predicate Asked(asked: seq<Bytes>, addrs: seq<Bytes>, have: set<Bytes>, store: map<Bytes, Chunk>,
                        valid: Chunk -> bool, stamped: Chunk -> bool) {
    && Serves(store, asked, valid, stamped) && (forall i :: 0 <= i < |asked| ==> asked[i] in store && asked[i] !in have)
    && (forall a :: a in asked <==> a in addrs && a !in have)
    && have + (set a | a in asked) == have + (set a | a in addrs)
    && (Distinct(asked) <==> MissingOnce(addrs, have))
  }

  lemma AskedInStore(asked: seq<Bytes>, addrs: seq<Bytes>, have: set<Bytes>, store: map<Bytes, Chunk>,
                     valid: Chunk -> bool, stamped: Chunk -> bool)
    requires Asked(asked, addrs, have, store, valid, stamped)
    ensures forall i :: 0 <= i < |asked| ==> asked[i] in store
  {}

  lemma Concluded(was: map<Bytes, Chunk>, now: map<Bytes, Chunk>, store: map<Bytes, Chunk>, addrs: seq<Bytes>,
                  asked: seq<Bytes>,
                  valid: Chunk -> bool, stamped: Chunk -> bool, top: nat, r: Outcome, n: nat)
    requires Asked(asked, addrs, was.Keys, store, valid, stamped)
    requires forall i :: 0 <= i < |asked| ==> asked[i] in store
    requires Reading(Picked(store, asked), (set a | a in asked), |asked|, top, valid, stamped, r, n)
    requires r.UnsolicitedChunk? || r.InvalidChunk? ==> now == was
    requires !r.UnsolicitedChunk? && !r.InvalidChunk? ==>
               now == PutAll(was, OnlyStamped(Picked(store, asked)[..n], stamped))
    ensures Exchanged(was, now, store, addrs, top, r)
  {
    hide Serves, Picked, PutAll, OnlyStamped, Distinct, MissingOnce;
    AllServed(store, asked, valid, stamped, top, r, n);
    assert Picked(store, asked)[..|asked|] == Picked(store, asked);
    hide Reading;
    ServedFacts(store, asked, valid, stamped);
    if r.Topmost? {
      AllStamped(Picked(store, asked), stamped);
      AllPut(was, store, asked);
    }
  }

  lemma ServedFacts(store: map<Bytes, Chunk>, asked: seq<Bytes>, valid: Chunk -> bool, stamped: Chunk -> bool)
    requires Serves(store, asked, valid, stamped)
    ensures forall i :: 0 <= i < |asked| ==> asked[i] in store && store[asked[i]].addr == asked[i]
    ensures forall i :: 0 <= i < |asked| ==> stamped(Picked(store, asked)[i])
  {}

  /** What the asking side asks for. */
  lemma AskedFacts(hashes: Bytes, bits: Bytes, addrs: seq<Bytes>, have: set<Bytes>, store: map<Bytes, Chunk>,
                   valid: Chunk -> bool, stamped: Chunk -> bool)
    requires HashCount(hashes) == |addrs| && Marks(bits, hashes, have) && Serves(store, addrs, valid, stamped)
    requires forall i :: 0 <= i < |addrs| ==> HashAt(hashes, i) == addrs[i]
    ensures Selected(hashes, bits, |addrs|) == Missing(hashes, have, |addrs|)
    ensures Asked(Missing(hashes, have, |addrs|), addrs, have, store, valid, stamped)
  {
    hide Missing, Selected, Marks, HashAt, Distinct, MissingOnce;
    SelectedIsMissing(hashes, bits, have, |addrs|);
    MissingIs(hashes, addrs, have, |addrs|);
    MissingDistinct(hashes, addrs, have, |addrs|);
    assert addrs[..|addrs|] == addrs;
    OfThese(Missing(hashes, have, |addrs|), addrs, have, store, valid, stamped);
  }

  lemma OfThese(asked: seq<Bytes>, addrs: seq<Bytes>, have: set<Bytes>, store: map<Bytes, Chunk>,
                valid: Chunk -> bool, stamped: Chunk -> bool)
    requires Serves(store, addrs, valid, stamped) && forall a :: a in asked <==> a in addrs && a !in have
    ensures Serves(store, asked, valid, stamped) && have + (set a | a in asked) == have + (set a | a in addrs)
    ensures forall i :: 0 <= i < |asked| ==> asked[i] in store && asked[i] !in have
  {
    forall i | 0 <= i < |asked| ensures asked[i] in addrs && asked[i] !in have { assert asked[i] in asked; }
  }

  lemma Lengths(store: map<Bytes, Chunk>, addrs: seq<Bytes>, valid: Chunk -> bool, stamped: Chunk -> bool)
    requires Serves(store, addrs, valid, stamped)
    ensures forall i :: 0 <= i < |addrs| ==> |addrs[i]| == HASH_SIZE
  {}

  /** An honest peer that offers one missing chunk twice is taken for one that sends what was not asked for. */
  method RepeatedOffer(c: Chunk) returns (r: Outcome)
    requires |c.addr| == HASH_SIZE
    ensures r == UnsolicitedChunk
  {
    var accept := (_: Chunk) => true;
    var client := new Syncer(map[], accept, accept);
    var server := new Syncer(map[c.addr := c], accept, accept);
    var addrs := [c.addr, c.addr];
    assert addrs[0] == addrs[1];
    r := SyncInterval(client, server, addrs, 0);
  }

  /**
   * Two deliveries, the first without a valid stamp: its error is overwritten when the second one is read, and the
   * interval counts as synced although the first chunk is not held.
   */
  method SkippedStamp(bad: Chunk, good: Chunk, top: nat) returns (r: Outcome, held: set<Bytes>)
    requires bad.addr != good.addr
    ensures r == Topmost(top) && held == {good.addr}
  {
    var client := new Syncer(map[], _ => true, c => c != bad);
    var ds := [bad, good];
    ghost var n;
    r, n := client.Receive(ds, {bad.addr, good.addr}, 2, top);
    held := client.store.Keys;
    SkippedReading(ds, client.valid, client.stamped, top, r, n);
    assert ds[..2] == ds && ds[..2][..1] == ds[..1] && ds[..1][..0] == ds[..0];
    assert OnlyStamped(ds[..0], client.stamped) == [];
    assert OnlyStamped(ds[..1], client.stamped) == [] && OnlyStamped(ds, client.stamped) == [good];
    assert PutAll(map[], [good]) == map[good.addr := good] by { assert [good][..0] == []; }
  }

  lemma SkippedReading(ds: seq<Chunk>, valid: Chunk -> bool, stamped: Chunk -> bool, top: nat, r: Outcome, n: nat)
    requires |ds| == 2 && ds[0].addr != ds[1].addr && stamped(ds[1]) && forall c :: valid(c)
    requires Reading(ds, {ds[0].addr, ds[1].addr}, 2, top, valid, stamped, r, n)
    ensures r == Topmost(top) && n == 2
  {}

  lemma NothingOffered(was: map<Bytes, Chunk>, store: map<Bytes, Chunk>, addrs: seq<Bytes>, top: nat)
    ensures addrs == [] ==> Exchanged(was, was, store, addrs, top, Topmost(top))
  {
    assert addrs == [] ==> was.Keys + (set a | a in addrs) == was.Keys;
  }

  /** How the reading ends when each asked chunk is delivered and fine. */
  lemma AllServed(store: map<Bytes, Chunk>, asked: seq<Bytes>, valid: Chunk -> bool, stamped: Chunk -> bool, top: nat,
                  r: Outcome, n: nat)
    requires Serves(store, asked, valid, stamped)
    requires Reading(Picked(store, asked), (set a | a in asked), |asked|, top, valid, stamped, r, n)
    ensures r == Topmost(top) || r == UnsolicitedChunk
    ensures r == Topmost(top) ==> n == |asked|
    ensures r == Topmost(top) <==> Distinct(asked)
  {
    var ds := Picked(store, asked);
    assert forall i :: 0 <= i < |asked| ==> ds[i].addr == asked[i];
    if r.Topmost? {
      assert ds[..n] == ds;
    }
    if r.UnsolicitedChunk? {
      var i :| 0 <= i < n && ds[..n][i].addr == asked[n];
      assert asked[i] == asked[n];
    }
  }

  /** Storing what a serving node holds. */
  lemma {:induction false} AllPut(was: map<Bytes, Chunk>, store: map<Bytes, Chunk>, asked: seq<Bytes>)
    requires forall i :: 0 <= i < |asked| ==> asked[i] in store && store[asked[i]].addr == asked[i] && asked[i] !in was
    ensures Added(was, PutAll(was, Picked(store, asked)), store, asked)
  {
    hide Added;
    var cs := Picked(store, asked);
    if asked == [] {
      NothingAdded(was, store);
    } else {
      var k := |asked| - 1;
      AllPut(was, store, asked[..k]);
      assert cs[..k] == Picked(store, asked[..k]) && cs[k] == store[asked[k]];
      assert asked == asked[..k] + [asked[k]];
      hide Picked;
      AddedNext(was, PutAll(was, cs[..k]), store, asked[..k], asked[k]);
    }
  }

  lemma {:induction false} AllStamped(ds: seq<Chunk>, stamped: Chunk -> bool)
    requires forall i :: 0 <= i < |ds| ==> stamped(ds[i])
    ensures OnlyStamped(ds, stamped) == ds
  {
    if ds != [] {
      AllStamped(ds[..|ds| - 1], stamped);
      assert ds == ds[..|ds| - 1] + [ds[|ds| - 1]];
    }
  }

  /** The chunks at these addresses have come in and nothing else has changed. */
  ghost predicate Added(was: map<Bytes, Chunk>, now: map<Bytes, Chunk>, store: map<Bytes, Chunk>, asked: seq<Bytes>) {
    && now.Keys == was.Keys + (set a | a in asked)
    && (forall a :: a in was ==> now[a] == was[a])
    && (forall a :: a in asked ==> a in store && now[a] == store[a])
  }

  lemma NothingAdded(was: map<Bytes, Chunk>, store: map<Bytes, Chunk>)
    ensures Added(was, was, store, [])
  {
    assert was.Keys + (set a | a in []) == was.Keys;
  }

  lemma AddedNext(was: map<Bytes, Chunk>, now: map<Bytes, Chunk>, store: map<Bytes, Chunk>, asked: seq<Bytes>, a: Bytes)
    requires Added(was, now, store, asked) && a !in was && a in store
    ensures Added(was, now[a := store[a]], store, asked + [a])
  {
    assert (set x | x in asked + [a]) == (set x | x in asked) + {a};
  }

  lemma {:induction false} MissingIs(hashes: Bytes, addrs: seq<Bytes>, have: set<Bytes>, n: nat)
    requires n <= |addrs| == HashCount(hashes)
    requires forall i :: 0 <= i < |addrs| ==> HashAt(hashes, i) == addrs[i]
    ensures forall a :: a in Missing(hashes, have, n) <==> a in addrs[..n] && a !in have
  {
    hide HashAt;
    if n > 0 {
      MissingIs(hashes, addrs, have, n - 1);
      assert addrs[..n] == addrs[..n - 1] + [addrs[n - 1]];
    }
  }

  /** Nothing is asked for twice exactly when nothing missing is offered twice. */
  lemma {:induction false} MissingDistinct(hashes: Bytes, addrs: seq<Bytes>, have: set<Bytes>, n: nat)
    requires n <= |addrs| == HashCount(hashes)
    requires forall i :: 0 <= i < |addrs| ==> HashAt(hashes, i) == addrs[i]
    ensures Distinct(Missing(hashes, have, n)) <==> MissingOnce(addrs[..n], have)
  {
    hide HashAt, Distinct, MissingOnce;
    if n == 0 {
      Empties(have);
    } else {
      var x := addrs[n - 1];
      assert Missing(hashes, have, n - 1) + [] == Missing(hashes, have, n - 1);
      MissingDistinct(hashes, addrs, have, n - 1);
      MissingIs(hashes, addrs, have, n - 1);
      assert addrs[..n] == addrs[..n - 1] + [x];
      OncePlus(addrs[..n - 1], x, have);
      DistinctPlus(Missing(hashes, have, n - 1), x);
    }
  }

  lemma Empties(have: set<Bytes>)
    ensures Distinct([]) && MissingOnce([], have)
  {}

  lemma DistinctPlus(m: seq<Bytes>, x: Bytes)
    ensures Distinct(m + [x]) <==> Distinct(m) && x !in m
  {
    assert forall i :: 0 <= i < |m| ==> (m + [x])[i] == m[i];
    assert (m + [x])[|m|] == x;
  }

  lemma OncePlus(p: seq<Bytes>, x: Bytes, have: set<Bytes>)
    ensures MissingOnce(p + [x], have) <==> MissingOnce(p, have) && (x in p ==> x in have)
  {
    assert forall i :: 0 <= i < |p| ==> (p + [x])[i] == p[i];
    assert (p + [x])[|p|] == x;
  }
}
