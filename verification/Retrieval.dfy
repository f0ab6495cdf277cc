/** Choosing the peer nearest to a chunk (pkg/retrieval). */
module Retrieval {
  import opened Common
  import opened Distance

  datatype Found = Peer(addr: Bytes) | NotFound | LengthError

  /** A peer that may be chosen. */
  predicate Candidate(peers: seq<Bytes>, skip: seq<Bytes>, p: Bytes) { p in peers && p !in skip }

  /** All addresses have the length of the chunk's address, which is not empty. */
  predicate SameLengths(addr: Bytes, base: Bytes, peers: seq<Bytes>) {
    0 < |addr| == |base| && forall i :: 0 <= i < |peers| ==> |peers[i]| == |addr|
  }

  /** p is nearer to the chunk than every other peer that may be chosen. */
  ghost predicate Nearest(addr: Bytes, peers: seq<Bytes>, skip: seq<Bytes>, p: Bytes) {
    && |p| == |addr| && Candidate(peers, skip, p)
    && forall c :: |c| == |addr| && Candidate(peers, skip, c) && c != p ==> Dist(addr, p) < Dist(addr, c)
  }

  /** What closestPeer answers, whatever the order of the peers. */
  ghost predicate Chosen(addr: Bytes, base: Bytes, peers: seq<Bytes>, skip: seq<Bytes>, allowUpstream: bool, r: Found)
    requires |addr| == |base|
  {
    match r
    case Peer(p) => Nearest(addr, peers, skip, p) && (allowUpstream || Dist(addr, p) < Dist(addr, base))
    case NotFound =>
      forall c :: |c| == |addr| && Candidate(peers, skip, c) ==> !allowUpstream && Dist(addr, base) <= Dist(addr, c)
    case LengthError => false
  }

  /** The peers that may be chosen, in the order they come in. */
  function Eligible(peers: seq<Bytes>, skip: seq<Bytes>): seq<Bytes> {
    if peers == [] then []
    else
      var n := |peers| - 1;
      Eligible(peers[..n], skip) + if peers[n] in skip then [] else [peers[n]]
  }

  predicate AllLong(ps: seq<Bytes>, n: nat) { forall i :: 0 <= i < |ps| ==> |ps[i]| == n }

  /** Some comparison meets addresses of different length. A lone peer is compared only with this node. */
  predicate Mismatch(addr: Bytes, base: Bytes, eligible: seq<Bytes>, allowUpstream: bool) {
    || (|eligible| >= 2 && !AllLong(eligible, |addr|))
    || (|eligible| >= 1 && !allowUpstream && (!AllLong(eligible, |addr|) || |base| != |addr|))
  }

  method ClosestPeer(addr: Bytes, base: Bytes, peers: seq<Bytes>, skip: seq<Bytes>,
                     allowUpstream: bool) returns (r: Found)
    ensures SameLengths(addr, base, peers) ==> Chosen(addr, base, peers, skip, allowUpstream, r)
    ensures [] !in peers ==> (r == LengthError <==> Mismatch(addr, base, Eligible(peers, skip), allowUpstream))
    ensures [] !in peers && r == NotFound && allowUpstream ==> Eligible(peers, skip) == []
  {
    hide Dist, SameLengths, Chosen, Nearest;
    var closest: Bytes := [];
    for i := 0 to |peers|
      invariant SameLengths(addr, base, peers) ==> BestOf(addr, peers[..i], skip, closest)
      invariant [] !in peers ==> (closest == [] <==> Eligible(peers[..i], skip) == [])
      invariant closest != [] ==> closest in Eligible(peers[..i], skip)
      invariant [] !in peers && |Eligible(peers[..i], skip)| >= 2 ==> AllLong(Eligible(peers[..i], skip), |addr|)
    {
      var peer := peers[i];
      assert peers[..i + 1][..i] == peers[..i];
      ghost var e := Eligible(peers[..i], skip);
      if peer in skip {
        if SameLengths(addr, base, peers) { BestNext(addr, base, peers, skip, i, closest, closest); }
      } else if closest == [] {
        if SameLengths(addr, base, peers) { BestNext(addr, base, peers, skip, i, closest, peer); }
        closest := peer;
      } else {
        var dcmp := DistanceCmp(addr, closest, peer);
        if dcmp.None? {
          TooLong(addr, base, peers, skip, i, closest, allowUpstream);
          return LengthError;
        }
        ghost var next := if dcmp.value == -1 then peer else closest;
        if SameLengths(addr, base, peers) { BestNext(addr, base, peers, skip, i, closest, next); }
        if [] !in peers { OneMore(e, closest, peer, |addr|); }
        if dcmp.value == -1 { closest := peer; }
      }
    }
    assert peers[..|peers|] == peers;
    if SameLengths(addr, base, peers) { BestChosen(addr, base, peers, skip, allowUpstream, closest); }
    if closest == [] { return NotFound; }
    ghost var e := Eligible(peers, skip);
    assert |e| == 1 ==> e[0] == closest;
    if allowUpstream { return Peer(closest); }
    var dcmp := DistanceCmp(addr, closest, base);
    if dcmp.None? { return LengthError; }
    if dcmp.value != 1 { return NotFound; }
    r := Peer(closest);
  }

  /** The nearest of the peers looked at, if one may be chosen. */
  ghost predicate BestOf(addr: Bytes, peers: seq<Bytes>, skip: seq<Bytes>, closest: Bytes) {
    if closest == [] then forall j :: 0 <= j < |peers| ==> peers[j] in skip else Nearest(addr, peers, skip, closest)
  }

  lemma BestNext(addr: Bytes, base: Bytes, peers: seq<Bytes>, skip: seq<Bytes>, i: nat, closest: Bytes, next: Bytes)
    requires SameLengths(addr, base, peers) && i < |peers| && BestOf(addr, peers[..i], skip, closest)
    requires if peers[i] in skip then next == closest
             else if closest == [] then next == peers[i]
             else
               |closest| == |addr|
               && next == if Dist(addr, peers[i]) < Dist(addr, closest) then peers[i] else closest
    requires closest != [] && peers[i] !in skip && next == closest ==>
               peers[i] == closest || Dist(addr, closest) < Dist(addr, peers[i])
    ensures BestOf(addr, peers[..i + 1], skip, next)
  {
    hide Dist;
    assert peers[..i + 1] == peers[..i] + [peers[i]];
    if closest != [] {
      NearestNext(addr, peers, skip, i, closest);
    }
  }

  lemma BestChosen(addr: Bytes, base: Bytes, peers: seq<Bytes>, skip: seq<Bytes>, allowUpstream: bool, closest: Bytes)
    requires SameLengths(addr, base, peers) && BestOf(addr, peers, skip, closest)
    ensures |base| == |addr| && (closest == [] ==> Chosen(addr, base, peers, skip, allowUpstream, NotFound))
    ensures closest != [] ==>
              && |closest| == |addr|
              && Chosen(addr, base, peers, skip, allowUpstream,
                        if allowUpstream || Dist(addr, closest) < Dist(addr, base) then Peer(closest) else NotFound)
  {
    hide Dist;
  }

  lemma OneMore(e: seq<Bytes>, closest: Bytes, peer: Bytes, n: nat)
    requires closest in e && |closest| == n && |peer| == n && (|e| >= 2 ==> AllLong(e, n))
    ensures AllLong(e + [peer], n)
  {}

  /** A comparison that fails in the loop shows a peer of another length. */
  lemma TooLong(addr: Bytes, base: Bytes, peers: seq<Bytes>, skip: seq<Bytes>, i: nat, closest: Bytes,
                allowUpstream: bool)
    requires i < |peers| && peers[i] !in skip && closest in Eligible(peers[..i], skip)
    requires |closest| != |addr| || |peers[i]| != |addr|
    ensures Mismatch(addr, base, Eligible(peers, skip), allowUpstream) && !SameLengths(addr, base, peers)
  {
    EligibleIn(peers[..i], skip, closest);
    assert peers[..i + 1][..i] == peers[..i];
    var e := Eligible(peers[..i + 1], skip);
    assert e == Eligible(peers[..i], skip) + [peers[i]];
    EligibleGrows(peers, skip, i + 1);
    assert closest in e && peers[i] in e;
  }

  lemma {:induction false} EligibleIn(peers: seq<Bytes>, skip: seq<Bytes>, p: Bytes)
    requires p in Eligible(peers, skip)
    ensures p in peers
  {
    var n := |peers| - 1;
    if p in Eligible(peers[..n], skip) { EligibleIn(peers[..n], skip, p); }
  }

  lemma {:induction false} EligibleGrows(peers: seq<Bytes>, skip: seq<Bytes>, i: nat)
    requires i <= |peers|
    ensures Eligible(peers[..i], skip) <= Eligible(peers, skip)
  {
    if i < |peers| {
      var n := |peers| - 1;
      assert peers[..n][..i] == peers[..i];
      EligibleGrows(peers[..n], skip, i);
    } else {
      assert peers[..i] == peers;
    }
  }

  /** How the nearest peer changes when one more is looked at. */
  lemma NearestNext(addr: Bytes, peers: seq<Bytes>, skip: seq<Bytes>, i: nat, p: Bytes)
    requires i < |peers| && |peers[i]| == |addr| && Nearest(addr, peers[..i], skip, p)
    ensures peers[i] in skip || peers[i] == p || Dist(addr, p) < Dist(addr, peers[i]) ==>
              Nearest(addr, peers[..i + 1], skip, p)
    ensures peers[i] !in skip && Dist(addr, peers[i]) < Dist(addr, p) ==> Nearest(addr, peers[..i + 1], skip, peers[i])
  {
    hide Dist;
    assert peers[..i + 1] == peers[..i] + [peers[i]];
  }

  /** The answer is unique, so it does not depend on the order the peers come in. */
  lemma OrderDoesNotMatter(addr: Bytes, base: Bytes, peers: seq<Bytes>, others: seq<Bytes>, skip: seq<Bytes>,
                           allowUpstream: bool, r: Found, q: Found)
    requires SameLengths(addr, base, peers) && SameLengths(addr, base, others)
    requires forall p :: p in peers <==> p in others
    requires Chosen(addr, base, peers, skip, allowUpstream, r) && Chosen(addr, base, others, skip, allowUpstream, q)
    ensures r == q
  {
    hide Dist;
  }

  /** A request handed on without upstream peers comes strictly nearer to the chunk with each hop and never returns
      to a node. */
  lemma {:induction false} HopsComeNearer(addr: Bytes, hops: seq<Bytes>, peers: seq<seq<Bytes>>,
                                          skip: seq<seq<Bytes>>, i: nat, j: nat)
    requires |peers| == |skip| && |hops| == |peers| + 1 && i < j < |hops|
             && forall k :: 0 <= k < |hops| ==> |hops[k]| == |addr|
    requires forall k :: 0 <= k < |peers| ==> Chosen(addr, hops[k], peers[k], skip[k], false, Peer(hops[k + 1]))
    ensures Dist(addr, hops[j]) < Dist(addr, hops[i]) && hops[i] != hops[j]
    ensures ProximityOf(addr, hops[i]) <= ProximityOf(addr, hops[j])
    decreases j
  {
    hide Dist, ProximityOf;
    assert Chosen(addr, hops[j - 1], peers[j - 1], skip[j - 1], false, Peer(hops[j - 1 + 1]));
    if i < j - 1 { HopsComeNearer(addr, hops, peers, skip, i, j - 1); }
    if ProximityOf(addr, hops[j]) < ProximityOf(addr, hops[i]) { CloserByProximity(addr, hops[i], hops[j]); }
  }
}
