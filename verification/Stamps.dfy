/** pkg/postage: issuing stamp indexes from collision buckets, and the stamp as bytes. */
module Stamps {
  import opened Common
  import opened Uints

  const UINT32 := 0x1_0000_0000

  /** Depths of a batch; each is a uint8. */
  datatype Depths = Depths(batch: nat, bucket: nat)

  /** What the issuer's documentation asks for. */
  predicate Sensible(d: Depths) { d.bucket < d.batch && d.batch - d.bucket < 32 && d.bucket <= 32 }

  /** 1 << (depth - bucketDepth), in uint8 and uint32. */
  function Capacity(d: Depths): nat {
    var diff := DepthDifference(d);
    if diff < 32 then Pow2(diff) else 0
  }

  function DepthDifference(d: Depths): nat { (d.batch - d.bucket) % 256 }

  /** The first bucketDepth bits of an address. */
  function ToBucket(depth: nat, addr: seq<Byte>): nat
    requires |addr| >= 4 && depth <= 32
  {
    Quotient(UintValue(addr[..4]), Pow2(32 - depth))
  }

  datatype StampIndex = StampIndex(bucket: nat, index: nat)

  function IndexToBytes(i: StampIndex): seq<Byte> { UintBytes(i.bucket, 4) + UintBytes(i.index, 4) }

  function BytesToIndex(buf: seq<Byte>): StampIndex
    requires |buf| >= 8
  {
    StampIndex(UintValue(buf[..8]) / UINT32, UintValue(buf[..8]) % UINT32)
  }

  /** Bucket counts and the count of the fullest bucket. */
  datatype Counts = Counts(buckets: seq<nat>, max: nat)

  datatype Issued = Issued(counts: Counts, r: Option<StampIndex>)

  /** inc on values; None is ErrBucketFull. */
  function Next(d: Depths, c: Counts, addr: seq<Byte>): (r: Issued)
    requires |addr| >= 4 && d.bucket <= 32 && |c.buckets| == Pow2(d.bucket)
    ensures |r.counts.buckets| == |c.buckets|
  {
    var b := ToBucket(d.bucket, addr);
    BucketInRange(d.bucket, addr);
    var n := c.buckets[b];
    if n == Capacity(d) then Issued(c, None)
    else Issued(Counts(c.buckets[b := n + 1], Max(c.max, n + 1)), Some(StampIndex(b, n)))
  }

  class StampIssuer {
    const depths: Depths
    const buckets: array<nat>
    var maxBucketCount: nat

    ghost predicate Valid() { depths.bucket <= 32 && buckets.Length == Pow2(depths.bucket) }

    function View(): Counts
      reads this, buckets
    {
      Counts(buckets[..], maxBucketCount)
    }

    constructor (depths: Depths)
      requires depths.bucket <= 32
      ensures Valid() && fresh(buckets) && this.depths == depths && View() == Fresh(depths)
    {
      this.depths := depths;
      buckets := new nat[Pow2(depths.bucket)](_ => 0);
      maxBucketCount := 0;
    }

    method Inc(addr: seq<Byte>) returns (r: Option<seq<Byte>>)
      requires Valid() && |addr| >= 4
      modifies this`maxBucketCount, buckets
      ensures View() == Next(depths, old(View()), addr).counts
      ensures r == match Next(depths, old(View()), addr).r case None => None case Some(i) => Some(IndexToBytes(i))
    {
      hide ToBucket, Capacity, IndexToBytes;
      BucketInRange(depths.bucket, addr);
      var b := ToBucket(depths.bucket, addr);
      var bucketCount := buckets[b];
      if bucketCount == Capacity(depths) { return None; }
      buckets[b] := buckets[b] + 1;
      if buckets[b] > maxBucketCount { maxBucketCount := buckets[b]; }
      assert buckets[..] == old(buckets[..])[b := bucketCount + 1];
      r := Some(IndexToBytes(StampIndex(b, bucketCount)));
    }
  }

  function Fresh(d: Depths): (c: Counts)
    ensures |c.buckets| == Pow2(d.bucket)
  {
    Counts(seq(Pow2(d.bucket), _ => 0), 0)
  }

  lemma BucketInRange(depth: nat, addr: seq<Byte>)
    requires |addr| >= 4 && depth <= 32
    ensures ToBucket(depth, addr) < Pow2(depth)
  {
    hide UintValue, Pow2, Pow256, Quotient;
    ValueBound(addr[..4]);
    Constants();
    PowSum(depth, 32 - depth);
    QuotientBounds(UintValue(addr[..4]), Pow2(32 - depth), Pow2(depth));
  }

  /** The bucket is what the first four bytes begin with: they lie between it and the next one, filled up with zeros. */
  lemma BucketIsPrefix(depth: nat, addr: seq<Byte>)
    requires |addr| >= 4 && depth <= 32
    ensures var b, unit := ToBucket(depth, addr), Pow2(32 - depth);
      b * unit <= UintValue(addr[..4]) < (b + 1) * unit
  {
    hide UintValue, Pow2, Quotient;
    var v, unit := UintValue(addr[..4]), Pow2(32 - depth);
    QuotientBounds(v, unit, ToBucket(depth, addr));
    QuotientBounds(v, unit, ToBucket(depth, addr) + 1);
  }

  /** Bit k of an address, counted from the first byte's highest bit. */
  function AddrBit(addr: seq<Byte>, k: nat): nat
    requires k / 8 < |addr|
  {
    Quotient(addr[k / 8], Pow2(7 - k % 8)) % 2
  }

  /** Two addresses fall into the same bucket if and only if their first bits agree. */
  lemma {:induction false} SameBucket(depth: nat, a: seq<Byte>, b: seq<Byte>)
    requires |a| >= 4 && |b| >= 4 && depth <= 32
    ensures ToBucket(depth, a) == ToBucket(depth, b) <==> forall k :: 0 <= k < depth ==> AddrBit(a, k) == AddrBit(b, k)
  {
    hide ToBucket, AddrBit;
    if depth == 0 {
      NoBits(a);
      NoBits(b);
    } else {
      SameBucket(depth - 1, a, b);
      BucketNext(depth - 1, a);
      BucketNext(depth - 1, b);
    }
  }

  lemma NoBits(addr: seq<Byte>)
    requires |addr| >= 4
    ensures ToBucket(0, addr) == 0
  {
    hide ToBucket;
    BucketInRange(0, addr);
  }

  /** One bit more of depth is one more bit of the address. */
  lemma BucketNext(depth: nat, addr: seq<Byte>)
    requires |addr| >= 4 && depth < 32
    ensures ToBucket(depth + 1, addr) == 2 * ToBucket(depth, addr) + AddrBit(addr, depth) && AddrBit(addr, depth) <= 1
  {
    var v := UintValue(addr[..4]);
    BitOfValue(addr, depth);
    assert Pow2(32 - depth) == 2 * Pow2(31 - depth);
    hide UintValue, Pow2, Quotient;
    HalfQuotient(v, Pow2(31 - depth));
  }

  lemma HalfQuotient(v: nat, p: nat)
    requires p > 0
    ensures Quotient(v, p) == 2 * Quotient(v, 2 * p) + Quotient(v, p) % 2
  {
    QuotientTwice(v, p, 2);
    hide Quotient;
    HalfOf(Quotient(v, p), Quotient(v, 2 * p));
  }

  lemma HalfOf(q: nat, h: nat)
    requires h == Quotient(q, 2)
    ensures q == 2 * h + q % 2
  {}

  /** Dividing twice is dividing by the product. */
  lemma QuotientTwice(v: nat, p: nat, r: nat)
    requires p > 0 && r > 0
    ensures r * p > 0 && Quotient(v, r * p) == Quotient(Quotient(v, p), r)
  {
    MulMonotone(1, r, p);
    var q := Quotient(Quotient(v, p), r);
    hide Quotient;
    QuotientBounds(Quotient(v, p), r, q);
    QuotientBounds(Quotient(v, p), r, q + 1);
    QuotientBounds(v, p, q * r);
    QuotientBounds(v, p, (q + 1) * r);
    Regroup(q, r, p);
    Regroup(q + 1, r, p);
    QuotientBounds(v, r * p, q);
    QuotientBounds(v, r * p, q + 1);
  }

  lemma Regroup(q: nat, r: nat, p: nat)
    ensures q * r * p == q * (r * p)
  {}

  lemma BitOfValue(addr: seq<Byte>, k: nat)
    requires |addr| >= 4 && k < 32
    ensures Quotient(UintValue(addr[..4]), Pow2(31 - k)) % 2 == AddrBit(addr, k)
  {
    var j, r := k / 8, k % 8;
    var high, low := Pow2(8 * (3 - j)), Pow2(7 - r);
    TopBytes(addr, j);
    assert addr[..j + 1][..j] == addr[..j];
    assert UintValue(addr[..j + 1]) == 256 * UintValue(addr[..j]) + addr[j];
    PowSum(7 - r, 8 * (3 - j));
    PowSum(7 - r, r + 1);
    assert Pow2(8) == 256 && Pow2(r + 1) == 2 * Pow2(r);
    hide UintValue, Pow2, Quotient;
    QuotientTwice(UintValue(addr[..4]), high, low);
    LowBits(UintValue(addr[..j]), addr[j], low, Pow2(r));
  }

  lemma LowBits(w: nat, x: nat, p: nat, half: nat)
    requires p > 0 && p * (2 * half) == 256
    ensures Quotient(256 * w + x, p) % 2 == Quotient(x, p) % 2
  {
    hide Quotient;
    var more, q := 2 * half * w, Quotient(x, p);
    assert more * p == 256 * w by { Regroup(w, 2 * half, p); }
    QuotientBounds(x, p, q);
    QuotientBounds(x, p, q + 1);
    QuotientBounds(256 * w + x, p, more + q);
    QuotientBounds(256 * w + x, p, more + q + 1);
    assert (more + q) * p == more * p + q * p && (more + q + 1) * p == more * p + (q + 1) * p;
    assert more == 2 * (half * w);
    EvenMore(half * w, q);
  }

  lemma EvenMore(h: nat, q: nat)
    ensures (2 * h + q) % 2 == q % 2
  {}

  /** The first bytes of four are the highest digits of their value. */
  lemma TopBytes(addr: seq<Byte>, j: nat)
    requires |addr| >= 4 && j < 4
    ensures Quotient(UintValue(addr[..4]), Pow2(8 * (3 - j))) == UintValue(addr[..j + 1])
    decreases 3 - j
  {
    if j == 3 {
      assert Pow2(0) == 1;
    } else {
      TopBytes(addr, j + 1);
      assert addr[..j + 2][..j + 1] == addr[..j + 1];
      assert UintValue(addr[..j + 2]) == 256 * UintValue(addr[..j + 1]) + addr[j + 1];
      PowSum(8, 8 * (2 - j));
      assert Pow2(8) == 256;
      hide UintValue, Pow2, Quotient;
      QuotientTwice(UintValue(addr[..4]), Pow2(8 * (2 - j)), 256);
      LastByte(UintValue(addr[..j + 1]), addr[j + 1]);
    }
  }

  lemma LastByte(w: nat, x: Byte)
    ensures Quotient(256 * w + x, 256) == w
  {}

  lemma {:induction false} ValueBound(k: seq<Byte>)
    ensures UintValue(k) < Pow256(|k|)
  {
    if k != [] { ValueBound(k[..|k| - 1]); }
  }

  lemma {:induction false} PowSum(a: nat, b: nat)
    ensures Pow2(a) * Pow2(b) == Pow2(a + b)
  {
    if a > 0 {
      PowSum(a - 1, b);
      assert Pow2(a + b) == 2 * Pow2(a - 1 + b) && Pow2(a) == 2 * Pow2(a - 1);
      hide Pow2;
      Regroup(2, Pow2(a - 1), Pow2(b));
    }
  }

  lemma Constants()
    ensures Pow256(4) == UINT32 && Pow2(32) == UINT32
  {
    assert Pow2(8) == 256 && Pow2(16) == 65536;
    PowSum(16, 16);
  }

  // ---------------------------------------------------------------- runs of inc

  datatype Run = Run(counts: Counts, outs: seq<Option<StampIndex>>)

  /** Any sequence of inc calls on a new issuer. */
  function RunOf(d: Depths, addrs: seq<seq<Byte>>): (r: Run)
    requires d.bucket <= 32 && forall i :: 0 <= i < |addrs| ==> |addrs[i]| >= 4
    ensures |r.outs| == |addrs| && |r.counts.buckets| == Pow2(d.bucket)
  {
    if addrs == [] then Run(Fresh(d), [])
    else
      var n := |addrs| - 1;
      var r := RunOf(d, addrs[..n]);
      var s := Next(d, r.counts, addrs[n]);
      Run(s.counts, r.outs + [s.r])
  }

  /** How many indexes of a bucket have been issued. */
  function CountIn(outs: seq<Option<StampIndex>>, b: nat): nat {
    if outs == [] then 0
    else CountIn(outs[..|outs| - 1], b) + if outs[|outs| - 1].Some? && outs[|outs| - 1].value.bucket == b then 1 else 0
  }

  /** What the counters mean after any calls: issues per bucket, never above the capacity, and their maximum. */
  ghost predicate CountersTell(d: Depths, r: Run) {
    && (forall b ::
          0 <= b < |r.counts.buckets| ==>
            r.counts.buckets[b] == CountIn(r.outs, b) <= Capacity(d) && r.counts.buckets[b] <= r.counts.max)
    && exists b :: 0 <= b < |r.counts.buckets| && r.counts.buckets[b] == r.counts.max
  }

  lemma {:induction false} Counters(d: Depths, addrs: seq<seq<Byte>>)
    requires d.bucket <= 32 && forall i :: 0 <= i < |addrs| ==> |addrs[i]| >= 4
    ensures CountersTell(d, RunOf(d, addrs))
  {
    hide ToBucket, Capacity, Pow2;
    var r := RunOf(d, addrs);
    if addrs == [] {
      assert r.counts.buckets[0] == 0;
    } else {
      var n := |addrs| - 1;
      Counters(d, addrs[..n]);
      CountersNext(d, RunOf(d, addrs[..n]), addrs[n]);
    }
  }

  lemma CountersNext(d: Depths, r: Run, addr: seq<Byte>)
    requires d.bucket <= 32 && |addr| >= 4 && |r.counts.buckets| == Pow2(d.bucket) && CountersTell(d, r)
    ensures var s := Next(d, r.counts, addr); CountersTell(d, Run(s.counts, r.outs + [s.r]))
  {
    hide ToBucket, Capacity, Pow2, CountIn;
    var b := ToBucket(d.bucket, addr);
    BucketInRange(d.bucket, addr);
    var s := Next(d, r.counts, addr);
    forall x | 0 <= x < |r.counts.buckets|
      ensures s.counts.buckets[x] == CountIn(r.outs + [s.r], x) <= Capacity(d) && s.counts.buckets[x] <= s.counts.max
    {
      CountNext(r.outs, s.r, x);
      assert r.counts.buckets[x] == CountIn(r.outs, x);
    }
    MaxNext(d, r, addr, b);
  }

  lemma CountNext(outs: seq<Option<StampIndex>>, o: Option<StampIndex>, b: nat)
    ensures CountIn(outs + [o], b) == CountIn(outs, b) + if o.Some? && o.value.bucket == b then 1 else 0
  {
    assert (outs + [o])[..|outs|] == outs;
  }

  lemma MaxNext(d: Depths, r: Run, addr: seq<Byte>, b: nat)
    requires d.bucket <= 32 && |addr| >= 4 && |r.counts.buckets| == Pow2(d.bucket)
    requires b == ToBucket(d.bucket, addr) < |r.counts.buckets|
    requires exists m :: 0 <= m < |r.counts.buckets| && r.counts.buckets[m] == r.counts.max
    ensures var c := Next(d, r.counts, addr).counts; exists m :: 0 <= m < |c.buckets| && c.buckets[m] == c.max
  {
    hide ToBucket, Capacity, Pow2;
    var m :| 0 <= m < |r.counts.buckets| && r.counts.buckets[m] == r.counts.max;
    var c := Next(d, r.counts, addr).counts;
    assert c.buckets[m] == c.max || c.buckets[b] == c.max;
  }

  lemma {:induction false} RunPrefix(d: Depths, addrs: seq<seq<Byte>>, i: nat)
    requires d.bucket <= 32 && (forall k :: 0 <= k < |addrs| ==> |addrs[k]| >= 4) && i <= |addrs|
    ensures RunOf(d, addrs[..i]).outs == RunOf(d, addrs).outs[..i]
    decreases |addrs|
  {
    hide Next;
    if i == |addrs| {
      assert addrs[..i] == addrs;
    } else {
      var n := |addrs| - 1;
      RunPrefix(d, addrs[..n], i);
      assert addrs[..n][..i] == addrs[..i];
    }
  }

  /** The shift is the intended power of two exactly while it stays inside a uint32. */
  lemma CapacityExact(d: Depths)
    requires d.bucket <= d.batch < 256
    ensures Capacity(d) == Pow2(d.batch - d.bucket) <==> d.batch - d.bucket < 32
    ensures d.batch - d.bucket >= 32 ==> Capacity(d) == 0
  {}

  /** Call i fails exactly when its bucket has given out its whole capacity; otherwise it gives the next index of
      its bucket. */
  lemma IssuesInOrder(d: Depths, addrs: seq<seq<Byte>>, i: nat)
    requires d.bucket <= 32 && (forall k :: 0 <= k < |addrs| ==> |addrs[k]| >= 4) && i < |addrs|
    ensures var outs := RunOf(d, addrs).outs;
      var b := ToBucket(d.bucket, addrs[i]);
      && (outs[i].None? <==> CountIn(outs[..i], b) == Capacity(d))
         && (Sensible(d) ==> Capacity(d) == Pow2(d.batch - d.bucket))
      && (outs[i].Some? ==>
            outs[i].value == StampIndex(b, CountIn(outs[..i], b)) && CountIn(outs[..i], b) < Capacity(d))
  {
    RunPrefix(d, addrs, i);
    Counters(d, addrs[..i]);
    BucketInRange(d.bucket, addrs[i]);
    OutIs(d, addrs, i);
    SensibleCapacity(d);
    hide ToBucket, Pow2, CountIn, RunOf, Capacity;
  }

  /** What call i gives is what inc gives after the calls before it. */
  lemma OutIs(d: Depths, addrs: seq<seq<Byte>>, i: nat)
    requires d.bucket <= 32 && (forall k :: 0 <= k < |addrs| ==> |addrs[k]| >= 4) && i < |addrs|
    ensures RunOf(d, addrs).outs[i] == Next(d, RunOf(d, addrs[..i]).counts, addrs[i]).r
  {
    hide Next;
    RunPrefix(d, addrs, i + 1);
    assert addrs[..i + 1][..i] == addrs[..i];
    assert RunOf(d, addrs).outs[i] == RunOf(d, addrs[..i + 1]).outs[i];
  }

  lemma SensibleCapacity(d: Depths)
    ensures Sensible(d) ==> Capacity(d) == Pow2(d.batch - d.bucket)
  {
    hide Pow2;
  }

  lemma {:induction false} CountGrows(outs: seq<Option<StampIndex>>, b: nat, i: nat, j: nat)
    requires i <= j <= |outs|
    ensures CountIn(outs[..i], b) <= CountIn(outs[..j], b)
    ensures i < j && outs[i].Some? && outs[i].value.bucket == b ==> CountIn(outs[..i], b) < CountIn(outs[..j], b)
    decreases j
  {
    if i < j {
      assert outs[..j][..j - 1] == outs[..j - 1];
      CountGrows(outs, b, i, j - 1);
    }
  }

  /** No index is ever issued twice. */
  lemma IndexesDistinct(d: Depths, addrs: seq<seq<Byte>>, i: nat, j: nat)
    requires d.bucket <= 32 && (forall k :: 0 <= k < |addrs| ==> |addrs[k]| >= 4) && i < j < |addrs|
    requires RunOf(d, addrs).outs[i].Some? && RunOf(d, addrs).outs[j].Some?
    ensures RunOf(d, addrs).outs[i] != RunOf(d, addrs).outs[j]
  {
    hide ToBucket, Capacity, Pow2, CountIn, RunOf;
    IssuesInOrder(d, addrs, i);
    IssuesInOrder(d, addrs, j);
    CountGrows(RunOf(d, addrs).outs, ToBucket(d.bucket, addrs[i]), i, j);
  }

  // ---------------------------------------------------------------- stamps as bytes

  const STAMP_SIZE := 113

  datatype Stamp = Stamp(batchID: seq<Byte>, index: seq<Byte>, timestamp: seq<Byte>, sig: seq<Byte>)

  /** Go's copy into dst[from..to]: as much of src as there is room for. */
  function Copy(dst: seq<Byte>, from: nat, to: nat, src: seq<Byte>): (r: seq<Byte>)
    requires from <= to <= |dst|
    ensures |r| == |dst|
  {
    var n := Min(|src|, to - from);
    dst[..from] + src[..n] + dst[from + n..]
  }

  function Marshal(s: Stamp): (buf: seq<Byte>)
    ensures |buf| == STAMP_SIZE
  {
    var buf := Copy(seq(STAMP_SIZE, _ => 0), 0, STAMP_SIZE, s.batchID);
    var buf1 := Copy(buf, 32, 40, s.index);
    var buf2 := Copy(buf1, 40, 48, s.timestamp);
    Copy(buf2, 48, STAMP_SIZE, s.sig)
  }

  /** Nothing for ErrStampInvalid. */
  function Unmarshal(buf: seq<Byte>): Option<Stamp> {
    if |buf| != STAMP_SIZE then None else Some(Stamp(buf[..32], buf[32..40], buf[40..48], buf[48..]))
  }

  /** A stamp comes back as it was exactly when its parts have their proper lengths. */
  lemma StampRoundTrip(s: Stamp)
    ensures Unmarshal(Marshal(s)) == Some(s) <==>
              |s.batchID| == 32 && |s.index| == 8 && |s.timestamp| == 8 && |s.sig| == 65
    ensures Unmarshal(Marshal(s)) == Some(s) ==> Marshal(s) == s.batchID + s.index + s.timestamp + s.sig
  {
    if |s.batchID| == 32 && |s.index| == 8 && |s.timestamp| == 8 && |s.sig| == 65 {
      var m := Marshal(s);
      assert m == s.batchID + s.index + s.timestamp + s.sig;
      assert m[..32] == s.batchID && m[32..40] == s.index && m[40..48] == s.timestamp && m[48..] == s.sig;
    }
  }

  /** Each part stands in its place, cut where it is too long. */
  lemma PartsInPlace(s: Stamp)
    ensures var buf := Marshal(s);
      && (forall i :: 0 <= i < Min(|s.batchID|, 32) ==> buf[i] == s.batchID[i])
      && (forall i :: 0 <= i < Min(|s.index|, 8) ==> buf[32 + i] == s.index[i])
      && (forall i :: 0 <= i < Min(|s.timestamp|, 8) ==> buf[40 + i] == s.timestamp[i])
      && (forall i :: 0 <= i < Min(|s.sig|, 65) ==> buf[48 + i] == s.sig[i])
  {
    hide Copy;
    var buf := Copy(seq(STAMP_SIZE, _ => 0), 0, STAMP_SIZE, s.batchID);
    var buf1 := Copy(buf, 32, 40, s.index);
    var buf2 := Copy(buf1, 40, 48, s.timestamp);
    CopyAt(seq(STAMP_SIZE, _ => 0), 0, STAMP_SIZE, s.batchID);
    CopyAt(buf, 32, 40, s.index);
    CopyAt(buf1, 40, 48, s.timestamp);
    CopyAt(buf2, 48, STAMP_SIZE, s.sig);
  }

  lemma CopyAt(dst: seq<Byte>, from: nat, to: nat, src: seq<Byte>)
    requires from <= to <= |dst|
    ensures var r, n := Copy(dst, from, to, src), Min(|src|, to - from);
      && (forall i :: 0 <= i < n ==> r[from + i] == src[i])
      && (forall i :: 0 <= i < from || from + n <= i < |dst| ==> r[i] == dst[i])
  {}

  /** And what is read is written back unchanged. */
  lemma BytesRoundTrip(buf: seq<Byte>)
    requires |buf| == STAMP_SIZE
    ensures Unmarshal(buf).Some? && Marshal(Unmarshal(buf).value) == buf
  {
  }

  datatype Check = Passes | BucketMismatch | InvalidIndex

  /** The bucket and index checks of Valid. */
  function CheckIndex(d: Depths, addr: seq<Byte>, index: seq<Byte>): Check
    requires |addr| >= 4 && d.bucket <= 32 && |index| >= 8
  {
    var i := BytesToIndex(index);
    if ToBucket(d.bucket, addr) != i.bucket then BucketMismatch
    else if i.index >= Capacity(d) then InvalidIndex
    else Passes
  }

  /** An index passes if and only if its bucket is what the address begins with and the batch has room for it. */
  lemma PassesExactly(d: Depths, addr: seq<Byte>, i: StampIndex)
    requires |addr| >= 4 && d.bucket <= 32 && i.bucket < UINT32 && i.index < UINT32
    ensures var unit := Pow2(32 - d.bucket);
      var begins := i.bucket * unit <= UintValue(addr[..4]) < (i.bucket + 1) * unit;
      && |IndexToBytes(i)| == 8
      && (CheckIndex(d, addr, IndexToBytes(i)) == BucketMismatch <==> !begins)
      && (d.bucket <= d.batch && d.batch - d.bucket < 32 ==>
            (CheckIndex(d, addr, IndexToBytes(i)) == Passes <==> begins && i.index < Pow2(d.batch - d.bucket)))
  {
    IndexRoundTrip(i);
    BucketIsPrefix(d.bucket, addr);
    if d.bucket <= d.batch && d.batch - d.bucket < 32 { CapacityIs(d); }
    hide IndexToBytes, BytesToIndex, Capacity, UintValue, Pow2, Quotient;
    var unit, b := Pow2(32 - d.bucket), ToBucket(d.bucket, addr);
    if b < i.bucket { MulMonotone(b + 1, i.bucket, unit); }
    if i.bucket < b { MulMonotone(i.bucket + 1, b, unit); }
  }

  lemma CapacityIs(d: Depths)
    requires d.bucket <= d.batch && d.batch - d.bucket < 32
    ensures Capacity(d) == Pow2(d.batch - d.bucket)
  {
    hide Pow2;
  }

  lemma IndexRoundTrip(i: StampIndex)
    requires i.bucket < UINT32 && i.index < UINT32
    ensures |IndexToBytes(i)| == 8 && BytesToIndex(IndexToBytes(i)) == i
    ensures UintValue(IndexToBytes(i)) == i.bucket * UINT32 + i.index
  {
    hide UintBytes, UintValue, Pow256;
    Constants();
    UintRoundTrip(i.bucket, 4);
    UintRoundTrip(i.index, 4);
    ValueConcat(UintBytes(i.bucket, 4), UintBytes(i.index, 4));
    assert IndexToBytes(i)[..8] == IndexToBytes(i);
  }

  lemma {:induction false} ValueConcat(a: seq<Byte>, b: seq<Byte>)
    ensures UintValue(a + b) == UintValue(a) * Pow256(|b|) + UintValue(b)
  {
    if b == [] {
      assert a + b == a;
    } else {
      var n := |b| - 1;
      ValueConcat(a, b[..n]);
      assert (a + b)[..|a| + n] == a + b[..n];
      var p := Pow256(n);
      assert Pow256(|b|) == 256 * p;
      assert 256 * (UintValue(a) * p) == UintValue(a) * (256 * p);
    }
  }

  /** Every issued index, carried in a stamp through its byte form, passes the checks for its chunk, and for another
      chunk if and only if its address begins with the same bits. */
  lemma IssuedPasses(d: Depths, addrs: seq<seq<Byte>>, i: nat, batchID: seq<Byte>, timestamp: seq<Byte>,
                     sig: seq<Byte>, other: seq<Byte>)
    requires d.bucket <= 32 && (forall k :: 0 <= k < |addrs| ==> |addrs[k]| >= 4) && i < |addrs|
             && RunOf(d, addrs).outs[i].Some?
    requires |batchID| == 32 && |timestamp| == 8 && |sig| == 65 && |other| >= 4
    ensures var s := Unmarshal(Marshal(Stamp(batchID, IndexToBytes(RunOf(d, addrs).outs[i].value), timestamp, sig)));
      && s.Some? && |s.value.index| == 8 && CheckIndex(d, addrs[i], s.value.index) == Passes
      && (CheckIndex(d, other, s.value.index) == Passes <==>
            forall k :: 0 <= k < d.bucket ==> AddrBit(other, k) == AddrBit(addrs[i], k))
  {
    hide ToBucket, RunOf, CountIn, Marshal, IndexToBytes, BytesToIndex, AddrBit;
    SameBucket(d.bucket, other, addrs[i]);
    IssuesInOrder(d, addrs, i);
    var x := RunOf(d, addrs).outs[i].value;
    BucketSmall(d.bucket, addrs[i]);
    CapacitySmall(d);
    IndexRoundTrip(x);
    StampRoundTrip(Stamp(batchID, IndexToBytes(x), timestamp, sig));
  }

  lemma BucketSmall(depth: nat, addr: seq<Byte>)
    requires |addr| >= 4 && depth <= 32
    ensures ToBucket(depth, addr) < UINT32
  {
    hide ToBucket, Pow2;
    BucketInRange(depth, addr);
    PowGrows(depth, 32);
    Constants();
  }

  lemma CapacitySmall(d: Depths)
    ensures Capacity(d) < UINT32
  {
    hide Pow2;
    var diff := DepthDifference(d);
    if diff < 32 {
      hide DepthDifference;
      PowGrows(diff, 31);
      HalfRange();
    }
  }

  lemma HalfRange()
    ensures Pow2(31) < UINT32
  {
    Constants();
    assert Pow2(32) == 2 * Pow2(31);
    hide Pow2;
  }

  lemma {:induction false} PowGrows(a: nat, b: nat)
    requires a <= b
    ensures Pow2(a) <= Pow2(b)
  {
    if a < b { PowGrows(a, b - 1); }
  }
}
