/** pkg/swarm: the XOR metric and the proximity order, as the byte loops compute them and as numbers. */
module Distance {
  import opened Common

  function BigEndian(b: Bytes): nat {
    if b == [] then 0 else 256 * BigEndian(b[..|b| - 1]) + b[|b| - 1] as nat
  }

  function XorByte(x: bv8, y: bv8): bv8 { x ^ y }

  function Xor(x: Bytes, y: Bytes): (z: Bytes)
    requires |x| == |y|
    ensures |z| == |x|
  {
    seq(|x|, i requires 0 <= i < |x| => XorByte(x[i], y[i]))
  }

  /** The distance as an integer. */
  function Dist(x: Bytes, y: Bytes): nat
    requires |x| == |y|
  {
    BigEndian(Xor(x, y))
  }

  method DistanceRaw(x: Bytes, y: Bytes) returns (r: Option<Bytes>)
    ensures r == if |x| == |y| then Some(Xor(x, y)) else None
  {
    if |x| != |y| { return None; }
    var c := new bv8[|x|];
    for i := 0 to |x|
      invariant forall j :: 0 <= j < i ==> c[j] == XorByte(x[j], y[j])
    {
      c[i] := XorByte(x[i], y[i]);
    }
    assert c[..] == Xor(x, y);
    r := Some(c[..]);
  }

  /** Without computing the distances, 1 when x is nearer to a than y, -1 when it is farther, 0 when they are the
      same. */
  method DistanceCmp(a: Bytes, x: Bytes, y: Bytes) returns (r: Option<int>)
    ensures r.None? <==> |a| != |x| || |a| != |y|
    ensures r.Some? ==> r.value == 1 || r.value == -1 || r.value == 0
    ensures r.Some? ==> (r.value == 1 <==> Dist(a, x) < Dist(a, y)) && (r.value == -1 <==> Dist(a, y) < Dist(a, x))
    ensures r.Some? ==> (r.value == 0 <==> x == y)
  {
    hide Dist, XorByte;
    if |a| != |x| || |a| != |y| { return None; }
    for i := 0 to |a|
      invariant forall j :: 0 <= j < i ==> x[j] == y[j]
    {
      var dx, dy := XorByte(x[i], a[i]), XorByte(y[i], a[i]);
      XorSame(x[i], y[i], a[i]);
      if dx != dy {
        FirstByte(a, x, y, i);
        return if dx < dy then Some(1) else Some(-1);
      }
    }
    assert x == y;
    r := Some(0);
  }

  /** The first different byte decides. */
  lemma FirstByte(a: Bytes, x: Bytes, y: Bytes, i: nat)
    requires |a| == |x| == |y| && i < |a| && (forall j :: 0 <= j < i ==> x[j] == y[j])
    requires XorByte(x[i], a[i]) != XorByte(y[i], a[i])
    ensures if XorByte(x[i], a[i]) < XorByte(y[i], a[i]) then Dist(a, x) < Dist(a, y) else Dist(a, y) < Dist(a, x)
  {
    hide BigEndian, XorByte;
    var u, v := Xor(a, x), Xor(a, y);
    XorSwap(a[i], x[i]);
    XorSwap(a[i], y[i]);
    assert u[..i] == v[..i];
    Either(u[i], v[i]);
    if u[i] < v[i] { BigEndianLess(u, v, i); } else { BigEndianLess(v, u, i); }
  }

  lemma Either(p: bv8, q: bv8)
    ensures p == q || p < q || q < p
    ensures !(p < q && q < p)
  {}

  lemma XorSwap(a: bv8, x: bv8)
    ensures XorByte(a, x) == XorByte(x, a)
  {}

  lemma XorSame(x: bv8, y: bv8, a: bv8)
    ensures XorByte(x, a) == XorByte(y, a) <==> x == y
  {}

  lemma {:induction false} BigEndianLess(u: Bytes, v: Bytes, i: nat)
    requires |u| == |v| && i < |u| && u[..i] == v[..i] && u[i] < v[i]
    ensures BigEndian(u) < BigEndian(v)
  {
    var n := |u| - 1;
    if i < n {
      assert u[..n][..i] == u[..i] && v[..n][..i] == v[..i];
      BigEndianLess(u[..n], v[..n], i);
    }
  }

  /** Bit j of a byte, counted from the most significant one. */
  predicate BitOf(o: bv8, j: nat)
    requires j < 8
  {
    (o >> (7 - j)) & 1 != 0
  }

  /** Bit k of two addresses is the same. */
  predicate SameBit(one: Bytes, other: Bytes, k: nat)
    requires k / 8 < |one| && k / 8 < |other|
  {
    !BitOf(XorByte(one[k / 8], other[k / 8]), k % 8)
  }

  /** How many bits are looked at: four bytes, or less when a length, as a byte, is less. */
  function Examined(one: Bytes, other: Bytes): (n: nat)
    ensures n <= MAX_PO + 1 && n % 8 == 0 && n / 8 <= |one| && n / 8 <= |other|
  {
    8 * Min(MAX_PO / 8 + 1, Min(|one| % 256, |other| % 256))
  }

  /** The first different bit from k on, or MAX_PO when there is none below n. */
  function FirstDifferent(one: Bytes, other: Bytes, k: nat, n: nat): nat
    requires k <= n <= MAX_PO + 1 && n % 8 == 0 && n / 8 <= |one| && n / 8 <= |other|
    decreases n - k
  {
    if k == n then MAX_PO else if !SameBit(one, other, k) then k else FirstDifferent(one, other, k + 1, n)
  }

  function ProximityOf(one: Bytes, other: Bytes): nat { FirstDifferent(one, other, 0, Examined(one, other)) }

  method Proximity(one: Bytes, other: Bytes) returns (po: nat)
    ensures po == ProximityOf(one, other)
  {
    hide XorByte, BitOf, SameBit, Examined, FirstDifferent, ProximityOf;
    var b := MAX_PO / 8 + 1;
    if b > |one| % 256 { b := |one| % 256; }
    if b > |other| % 256 { b := |other| % 256; }
    ghost var n := 8 * b;
    WholeBytes(one, other, b);
    for i := 0 to b
      invariant ProximityOf(one, other) == FirstDifferent(one, other, 8 * i, n)
    {
      var oxo := XorByte(one[i], other[i]);
      for j := 0 to 8
        invariant ProximityOf(one, other) == FirstDifferent(one, other, 8 * i + j, n)
      {
        OneBit(one, other, i, j, n);
        if BitOf(oxo, j) { return i * 8 + j; }
      }
    }
    po := MAX_PO;
    AllTheSame(one, other, n);
  }

  lemma WholeBytes(one: Bytes, other: Bytes, b: nat)
    requires b <= 4 && b <= |one| % 256 && b <= |other| % 256 && (b == 4 || b == |one| % 256 || b == |other| % 256)
    ensures b <= |one| && b <= |other| && 8 * b <= MAX_PO + 1 && 8 * b % 8 == 0 && 8 * b / 8 == b
    ensures ProximityOf(one, other) == FirstDifferent(one, other, 0, 8 * b)
  {
    hide FirstDifferent;
  }

  lemma OneBit(one: Bytes, other: Bytes, i: nat, j: nat, n: nat)
    requires j < 8 && 8 * i + j < n <= MAX_PO + 1 && n % 8 == 0 && n / 8 <= |one| && n / 8 <= |other|
    ensures FirstDifferent(one, other, 8 * i + j, n) ==
            if BitOf(XorByte(one[i], other[i]), j) then 8 * i + j else FirstDifferent(one, other, 8 * i + j + 1, n)
  {
    hide BitOf, XorByte;
    assert (8 * i + j) / 8 == i && (8 * i + j) % 8 == j;
  }

  lemma AllTheSame(one: Bytes, other: Bytes, n: nat)
    requires n <= MAX_PO + 1 && n % 8 == 0 && n / 8 <= |one| && n / 8 <= |other|
    ensures FirstDifferent(one, other, n, n) == MAX_PO
  {}

  /** What the proximity order says about the bits. */
  lemma {:induction false} FirstDifferentIs(one: Bytes, other: Bytes, k: nat, n: nat)
    requires k <= n <= MAX_PO + 1 && n % 8 == 0 && n / 8 <= |one| && n / 8 <= |other|
    ensures var p := FirstDifferent(one, other, k, n);
      && p <= MAX_PO && (forall j :: k <= j < p && j < n ==> SameBit(one, other, j))
      && (p < MAX_PO ==> k <= p < n && !SameBit(one, other, p))
    decreases n - k
  {
    hide SameBit;
    if k < n { FirstDifferentIs(one, other, k + 1, n); }
  }

  lemma ProximitySymmetric(one: Bytes, other: Bytes)
    ensures ProximityOf(one, other) == ProximityOf(other, one)
  {
    SymmetricFrom(one, other, 0, Examined(one, other));
  }

  lemma {:induction false} SymmetricFrom(one: Bytes, other: Bytes, k: nat, n: nat)
    requires k <= n <= MAX_PO + 1 && n % 8 == 0 && n / 8 <= |one| && n / 8 <= |other|
    ensures FirstDifferent(one, other, k, n) == FirstDifferent(other, one, k, n)
    decreases n - k
  {
    hide BitOf, XorByte;
    if k < n {
      XorSwap(one[k / 8], other[k / 8]);
      SymmetricFrom(one, other, k + 1, n);
    }
  }

  /** A strictly larger proximity order is a strictly smaller distance. */
  lemma CloserByProximity(a: Bytes, x: Bytes, y: Bytes)
    requires |a| == |x| == |y| && ProximityOf(a, y) < ProximityOf(a, x)
    ensures Dist(a, x) < Dist(a, y)
  {
    hide BitOf, XorByte, BigEndian;
    var n := Examined(a, y);
    FirstDifferentIs(a, x, 0, n);
    FirstDifferentIs(a, y, 0, n);
    hide FirstDifferent;
    var p := ProximityOf(a, y);
    var i := p / 8;
    var u, v := Xor(a, x), Xor(a, y);
    forall m | 0 <= m < i ensures u[m] == 0 && v[m] == 0 {
      ZeroByte(a, x, m);
      ZeroByte(a, y, m);
    }
    assert u[..i] == v[..i];
    forall j | 0 <= j < p % 8 ensures !BitOf(u[i], j) && !BitOf(v[i], j) {
      assert (8 * i + j) / 8 == i && (8 * i + j) % 8 == j;
      assert SameBit(a, x, 8 * i + j) && SameBit(a, y, 8 * i + j);
    }
    assert SameBit(a, x, p);
    LargerByte(u[i], v[i], p % 8);
    BigEndianLess(u, v, i);
  }

  lemma ZeroByte(a: Bytes, x: Bytes, m: nat)
    requires |a| == |x| && m < |a| && forall j :: 8 * m <= j < 8 * m + 8 ==> SameBit(a, x, j)
    ensures XorByte(a[m], x[m]) == 0
  {
    hide BitOf, XorByte;
    var o := XorByte(a[m], x[m]);
    forall j | 0 <= j < 8 ensures !BitOf(o, j) {
      assert (8 * m + j) / 8 == m && (8 * m + j) % 8 == j && SameBit(a, x, 8 * m + j);
    }
    NoBits(o);
  }

  lemma NoBits(o: bv8)
    requires forall j :: 0 <= j < 8 ==> !BitOf(o, j)
    ensures o == 0
  {
    assert !BitOf(o, 0) && !BitOf(o, 1) && !BitOf(o, 2) && !BitOf(o, 3);
    assert !BitOf(o, 4) && !BitOf(o, 5) && !BitOf(o, 6) && !BitOf(o, 7);
  }

  /** Two bytes without the first j bits, of which only the second has bit j. */
  lemma LargerByte(u: bv8, v: bv8, j: nat)
    requires j < 8 && (forall t :: 0 <= t < j ==> !BitOf(u, t) && !BitOf(v, t)) && !BitOf(u, j) && BitOf(v, j)
    ensures u < v
  {
    assert j > 0 ==> !BitOf(u, 0) && !BitOf(v, 0);
    assert j > 1 ==> !BitOf(u, 1) && !BitOf(v, 1);
    assert j > 2 ==> !BitOf(u, 2) && !BitOf(v, 2);
    assert j > 3 ==> !BitOf(u, 3) && !BitOf(v, 3);
    assert j > 4 ==> !BitOf(u, 4) && !BitOf(v, 4);
    assert j > 5 ==> !BitOf(u, 5) && !BitOf(v, 5);
    assert j > 6 ==> !BitOf(u, 6) && !BitOf(v, 6);
  }

  /** localstore's addressInBin: the base address with one bit turned. */
  function AddressInBin(base: Bytes, bin: nat): Bytes
    requires bin / 8 < |base|
  {
    base[bin / 8 := base[bin / 8] ^ (1 << (7 - bin % 8))]
  }

  /** It has proximity order bin, as far as proximity orders go. */
  lemma AddressInBinIsInBin(base: Bytes, bin: nat)
    requires 4 <= |base| < 256 && bin / 8 < |base|
    ensures ProximityOf(base, AddressInBin(base, bin)) == Min(bin, MAX_PO)
  {
    hide SameBit, FirstDifferent, XorByte;
    var other := AddressInBin(base, bin);
    FirstDifferentIs(base, other, 0, 32);
    forall k | 0 <= k < 32 ensures SameBit(base, other, k) <==> k != bin {
      TurnedBit(base, bin, k);
    }
    assert Examined(base, other) == 32;
    assert bin < MAX_PO ==> !SameBit(base, other, bin);
  }

  lemma TurnedBit(base: Bytes, bin: nat, k: nat)
    requires bin / 8 < |base| && k / 8 < |base|
    ensures SameBit(base, AddressInBin(base, bin), k) <==> k != bin
  {
    OneTurned(base[k / 8], bin % 8, k % 8);
    Unturned(base[k / 8], k % 8);
  }

  lemma OneTurned(x: bv8, j: nat, t: nat)
    requires j < 8 && t < 8
    ensures BitOf(XorByte(x, x ^ (1 << (7 - j))), t) <==> t == j
  {}

  lemma Unturned(x: bv8, t: nat)
    requires t < 8
    ensures !BitOf(XorByte(x, x), t)
  {}
}
