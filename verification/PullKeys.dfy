/** Keys of the pull index as bytes: the bin, then the BinID as eight bytes, most significant first. */
module PullKeys {
  import opened Localstore
  import opened Shed
  import opened Uints

  const WIDTH := 8

  /** The stored key; ix is the prefix of the pull index in the database. */
  function PullKeyBytes(ix: Key, bin: Byte, binID: nat): (k: Key)
    ensures |k| == |ix| + 1 + WIDTH
  {
    ix + [bin] + UintBytes(binID, WIDTH)
  }

  predicate Fits(k: PullKey) { k.bin < 256 && k.binID < Pow256(WIDTH) }

  /** The keys with the prefix ix are those of the pull index. */
  ghost predicate Encodes(ix: Key, pull: map<PullKey, Addr>, keys: seq<Key>) {
    && Sorted(keys)
    && (forall k :: k in pull ==> Fits(k) && PullKeyBytes(ix, k.bin, k.binID) in keys)
    && (forall b ::
          b in keys && HasPrefix(b, ix) ==> exists k :: k in pull && Fits(k) && b == PullKeyBytes(ix, k.bin, k.binID))
  }

  /** Byte order of the keys of one bin is the order of the BinIDs. */
  lemma KeyOrder(ix: Key, bin: Byte, m: nat, n: nat)
    requires m < Pow256(WIDTH) && n < Pow256(WIDTH)
    ensures Less(PullKeyBytes(ix, bin, m), PullKeyBytes(ix, bin, n)) <==> m < n
    ensures PullKeyBytes(ix, bin, m) == PullKeyBytes(ix, bin, n) <==> m == n
  {
    hide Less, UintBytes;
    var a, b := PullKeyBytes(ix, bin, m), PullKeyBytes(ix, bin, n);
    if m < n {
      UintOrder(m, n, WIDTH);
      AfterPrefix(ix + [bin], UintBytes(m, WIDTH), UintBytes(n, WIDTH));
    } else if n < m {
      UintOrder(n, m, WIDTH);
      AfterPrefix(ix + [bin], UintBytes(n, WIDTH), UintBytes(m, WIDTH));
    }
    LessTotal(a, b);
  }

  lemma {:induction false} UintOrder(m: nat, n: nat, w: nat)
    requires m < n < Pow256(w)
    ensures Less(UintBytes(m, w), UintBytes(n, w))
  {
    hide Less;
    var a, b := UintBytes(m / 256, w - 1), UintBytes(n / 256, w - 1);
    if m / 256 < n / 256 {
      UintOrder(m / 256, n / 256, w - 1);
      BeforeSuffix(a, b, [m % 256], [n % 256]);
    } else {
      assert Less([m % 256], [n % 256]) by { LastByte(m % 256, n % 256); }
      AfterPrefix(a, [m % 256], [n % 256]);
    }
  }

  lemma LastByte(x: Byte, y: Byte)
    requires x < y
    ensures Less([x], [y])
  {}

  lemma {:induction false} AfterPrefix(p: Key, a: Key, b: Key)
    requires Less(a, b)
    ensures Less(p + a, p + b)
  {
    if p == [] {
      assert p + a == a && p + b == b;
    } else {
      assert (p + a)[1..] == p[1..] + a && (p + b)[1..] == p[1..] + b;
      AfterPrefix(p[1..], a, b);
    }
  }

  lemma {:induction false} BeforeSuffix(a: Key, b: Key, x: Key, y: Key)
    requires Less(a, b) && |a| == |b|
    ensures Less(a + x, b + y)
  {
    assert (a + x)[1..] == a[1..] + x && (b + y)[1..] == b[1..] + y;
    if a[0] == b[0] { BeforeSuffix(a[1..], b[1..], x, y); }
  }

  /** Which stored keys belong to a bin. */
  lemma BinPrefix(ix: Key, bin: Byte, other: Byte, n: nat)
    ensures HasPrefix(PullKeyBytes(ix, other, n), ix + [bin]) <==> bin == other
    ensures HasPrefix(PullKeyBytes(ix, other, n), ix)
  {
    hide UintBytes;
    var k := PullKeyBytes(ix, other, n);
    assert k[..|ix| + 1] == ix + [other] && k[..|ix|] == ix;
    assert (ix + [bin])[|ix|] == bin && (ix + [other])[|ix|] == other;
  }
}
