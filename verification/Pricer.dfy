/** pkg/pricer: the price of a request falls with the proximity of the serving node to the chunk. */
module Pricer {
  import opened Common
  import opened Distance

  /** A node's pricer: its overlay address and the price of one proximity order. */
  datatype FixedPricer = FixedPricer(overlay: Bytes, poPrice: nat)
  {
    /** What this node pays a peer for a chunk, in uint64. */
    function PeerPrice(peer: Bytes, chunk: Bytes): nat {
      Wrap(Orders(peer, chunk) * poPrice)
    }

    /** What this node charges for a chunk. */
    function Price(chunk: Bytes): nat { PeerPrice(overlay, chunk) }
  }

  const UINT64 := 0x1_0000_0000_0000_0000

  /** How many proximity orders a request to a peer is charged for. */
  function Orders(peer: Bytes, chunk: Bytes): int { MAX_PO - ProximityOf(peer, chunk) + 1 }

  /** uint64 arithmetic keeps the lowest 64 bits. */
  function Wrap(n: int): nat { n % UINT64 }

  lemma WrapFits(n: int)
    requires 0 <= n < UINT64
    ensures Wrap(n) == n
  {}

  /** The requester's price for a server is the server's own price, for every chunk, if and only if both use the
      same poPrice. */
  lemma PricesAgree(requester: FixedPricer, server: FixedPricer)
    requires requester.poPrice < UINT64 && server.poPrice < UINT64
    ensures (forall chunk: Bytes :: requester.PeerPrice(server.overlay, chunk) == server.Price(chunk)) <==>
              requester.poPrice == server.poPrice
  {
    var own := server.overlay;
    SelfProximity(own);
    WrapFits(requester.poPrice);
    WrapFits(server.poPrice);
    assert requester.PeerPrice(own, own) == requester.poPrice && server.Price(own) == server.poPrice;
    hide ProximityOf, Wrap;
  }

  lemma SelfProximity(x: Bytes)
    ensures ProximityOf(x, x) == MAX_PO
  {
    FirstDifferentIs(x, x, 0, Examined(x, x));
    forall k: nat | k / 8 < |x| ensures SameBit(x, x, k) { Unturned(x[k / 8], k % 8); }
    hide SameBit;
  }

  /** A nearer peer never asks for more, if and only if the highest price fits in a uint64. */
  lemma NearerIsNotDearer(pricer: FixedPricer)
    requires pricer.poPrice < UINT64
    ensures (forall chunk: Bytes, x: Bytes, y: Bytes :: NotDearer(pricer, chunk, x, y)) <==>
              (MAX_PO + 1) * pricer.poPrice < UINT64
  {
    hide NotDearer;
    if (MAX_PO + 1) * pricer.poPrice < UINT64 {
      forall chunk: Bytes, x: Bytes, y: Bytes ensures NotDearer(pricer, chunk, x, y) {
        NotDearerIfFits(pricer, chunk, x, y);
      }
    } else {
      var k := FirstWrap(pricer.poPrice, MAX_PO + 1);
      var chunk: Bytes := seq(4, _ => 0);
      var x := AtOrder(chunk, k - 1);
      var y := AtOrder(chunk, k);
      Dearer(pricer, chunk, x, y, k);
    }
  }

  predicate NotDearer(pricer: FixedPricer, chunk: Bytes, x: Bytes, y: Bytes) {
    |chunk| == |x| == |y| && Dist(chunk, x) <= Dist(chunk, y) ==>
      pricer.PeerPrice(x, chunk) <= pricer.PeerPrice(y, chunk)
  }

  /** The first multiple of the price that does not fit. */
  lemma {:induction false} FirstWrap(price: nat, n: nat) returns (k: nat)
    requires price < UINT64 <= n * price
    ensures 2 <= k <= n && (k - 1) * price < UINT64 <= k * price
  {
    if (n - 1) * price < UINT64 { k := n; } else { k := FirstWrap(price, n - 1); }
  }

  /** Where the price wraps, one proximity order nearer costs more. */
  lemma Dearer(pricer: FixedPricer, chunk: Bytes, x: Bytes, y: Bytes, k: nat)
    requires |chunk| == |x| == |y| && Orders(x, chunk) == k - 1 && Orders(y, chunk) == k
    requires pricer.poPrice < UINT64 && k >= 1 && (k - 1) * pricer.poPrice < UINT64 <= k * pricer.poPrice
    ensures !NotDearer(pricer, chunk, x, y)
  {
    ProximitySymmetric(x, chunk);
    ProximitySymmetric(y, chunk);
    hide ProximityOf, Dist, Wrap;
    CloserByProximity(chunk, x, y);
    WrapsBelow(pricer.poPrice, k);
  }

  /** An address that far from the chunk. */
  lemma AtOrder(chunk: Bytes, k: nat) returns (x: Bytes)
    requires |chunk| == 4 && 1 <= k <= MAX_PO + 1
    ensures |x| == 4 && Orders(x, chunk) == k
  {
    x := AddressInBin(chunk, MAX_PO + 1 - k);
    hide AddressInBin, ProximityOf;
    AddressInBinIsInBin(chunk, MAX_PO + 1 - k);
    ProximitySymmetric(x, chunk);
  }

  lemma WrapsBelow(price: nat, k: nat)
    requires price < UINT64 && k >= 1 && (k - 1) * price < UINT64 <= k * price
    ensures Wrap(k * price) < Wrap((k - 1) * price)
  {
    assert k * price == (k - 1) * price + price;
    WrapsOnce((k - 1) * price, price);
  }

  lemma WrapsOnce(low: nat, price: nat)
    requires low < UINT64 <= low + price && price < UINT64
    ensures Wrap(low + price) < Wrap(low)
  {
    assert Wrap(low + price) == low + price - UINT64;
  }

  lemma NotDearerIfFits(pricer: FixedPricer, chunk: Bytes, x: Bytes, y: Bytes)
    requires (MAX_PO + 1) * pricer.poPrice < UINT64
    ensures NotDearer(pricer, chunk, x, y)
  {
    hide Dist, ProximityOf, FixedPricer.PeerPrice;
    if |chunk| == |x| == |y| && Dist(chunk, x) <= Dist(chunk, y) {
      ProximitySymmetric(x, chunk);
      ProximitySymmetric(y, chunk);
      if ProximityOf(chunk, x) < ProximityOf(chunk, y) { CloserByProximity(chunk, y, x); }
      PriceIs(pricer, x, chunk);
      PriceIs(pricer, y, chunk);
      MulMonotone(Orders(x, chunk), Orders(y, chunk), pricer.poPrice);
    }
  }

  lemma PriceIs(pricer: FixedPricer, peer: Bytes, chunk: Bytes)
    requires (MAX_PO + 1) * pricer.poPrice < UINT64
    ensures 0 <= Orders(peer, chunk) && pricer.PeerPrice(peer, chunk) == Orders(peer, chunk) * pricer.poPrice
  {
    ProximityBound(peer, chunk);
    hide ProximityOf, Wrap;
    MulMonotone(Orders(peer, chunk), MAX_PO + 1, pricer.poPrice);
    WrapFits(Orders(peer, chunk) * pricer.poPrice);
  }

  lemma ProximityBound(x: Bytes, y: Bytes)
    ensures ProximityOf(x, y) <= MAX_PO
  {
    FirstDifferentIs(x, y, 0, Examined(x, y));
  }
}
