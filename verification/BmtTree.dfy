/**
The Binary Merkle Tree: configuration (pkg/bmt/pool.go), the shape of the tree of nodes,
and the plain recursive hash (pkg/bmt/reference) that every other form is compared with.
*/
module BmtTree {
  import opened Common

  /** Pool configuration. `base` is the hash of the tree levels; `sha3` the outer hash over span and root. */
  datatype Conf = Conf(base: Bytes -> Bytes, sha3: Bytes -> Bytes,
                       segmentSize: nat, depth: nat, zerohashes: seq<Bytes>)
  {
    /** A section is two segments: the data under one leaf node. */
    function SecSize(): nat { 2 * segmentSize }

    /** Number of leaf nodes. */
    function Sections(): nat
      requires depth >= 1
    {
      Pow2(depth - 1)
    }

    /** Capacity in bytes. */
    function MaxSize(): nat
      requires depth >= 1
    {
      Sections() * SecSize()
    }

    /** What NewConf establishes: entry i of the table is the root over 2^i all-zero segments. */
    ghost predicate Valid() {
      && segmentSize > 0
      && depth >= 1
      && |zerohashes| == depth + 1
      && zerohashes[0] == Zeros(segmentSize)
      && forall i :: 1 <= i <= depth ==> zerohashes[i] == base(zerohashes[i - 1] + zerohashes[i - 1])
    }
  }

  /** sizeToParams: the smallest power of two that is at least 2 and covers n segments, with its exponent. */
  method SizeToParams(n: nat) returns (c: nat, d: nat)
    ensures d >= 1 && c == Pow2(d)
    ensures c >= n
    ensures d > 1 ==> Pow2(d - 1) < n
  {
    c, d := 2, 0;
    while c < n
      invariant c == Pow2(d + 1)
      invariant d > 0 ==> Pow2(d) < n
      decreases n - c
    {
      d := d + 1;
      c := c * 2;
    }
    d := d + 1;
  }

  /** NewConf: parameters and the lookup table of all-zero subtrees. */
  method NewConf(base: Bytes -> Bytes, sha3: Bytes -> Bytes, segmentSize: nat, segmentCount: nat) returns (conf: Conf)
    requires segmentSize > 0
    ensures conf.Valid() && conf.base == base && conf.sha3 == sha3 && conf.segmentSize == segmentSize
    ensures conf.MaxSize() >= segmentCount * segmentSize
    ensures conf.depth > 1 ==> Pow2(conf.depth - 1) < segmentCount
    ensures forall k, m :: 0 <= k < conf.depth && m == conf.SecSize() * Pow2(k) ==>
              conf.zerohashes[k + 1] == RefHash(base, conf.SecSize(), k, Zeros(m))
  {
    var count, depth := SizeToParams(segmentCount);
    var zeros := Zeros(segmentSize);
    var zerohashes := [zeros];
    for i := 1 to depth + 1
      invariant |zerohashes| == i
      invariant zeros == zerohashes[i - 1] && zerohashes[0] == Zeros(segmentSize)
      invariant forall k :: 1 <= k < i ==> zerohashes[k] == base(zerohashes[k - 1] + zerohashes[k - 1])
    {
      zeros := base(zeros + zeros);
      zerohashes := zerohashes + [zeros];
    }
    conf := Conf(base, sha3, segmentSize, depth, zerohashes);
    assert conf.MaxSize() == Pow2(depth) * segmentSize by { MulAssoc(Pow2(depth - 1), 2, segmentSize); }
    MulMonotone(segmentCount, Pow2(depth), segmentSize);
    forall k, m | 0 <= k < depth && m == conf.SecSize() * Pow2(k)
      ensures zerohashes[k + 1] == RefHash(base, conf.SecSize(), k, Zeros(m))
    {
      ZeroTable(conf, k, m);
    }
  }

  lemma MulAssoc(a: nat, b: nat, c: nat)
    ensures a * (b * c) == (b * a) * c
  {}

  /** The reference hasher: recursive halving down to single sections; the data is sec * 2^k bytes long. */
  function RefHash(base: Bytes -> Bytes, sec: nat, k: nat, data: Bytes): Bytes
    requires |data| == sec * Pow2(k)
    decreases k
  {
    if k == 0 then base(data)
    else
      var half := sec * Pow2(k - 1);
      assert |data| == half + half;
      base(RefHash(base, sec, k - 1, data[..half]) + RefHash(base, sec, k - 1, data[half..]))
  }

  /** Entry k + 1 of the zero table is the reference hash of an all-zero subtree of height k. */
  lemma {:induction false} ZeroTable(conf: Conf, k: nat, m: nat)
    requires conf.Valid() && k < conf.depth
    requires m == conf.SecSize() * Pow2(k)
    ensures conf.zerohashes[k + 1] == RefHash(conf.base, conf.SecSize(), k, Zeros(m))
  {
    if k == 0 {
      assert Zeros(m) == Zeros(conf.segmentSize) + Zeros(conf.segmentSize);
    } else {
      var half := conf.SecSize() * Pow2(k - 1);
      assert m == half + half;
      ZeroTable(conf, k - 1, half);
      assert Zeros(m)[..half] == Zeros(half) && Zeros(m)[half..] == Zeros(half);
    }
  }

  // ---------------------------------------------------------------- tree shape

  /** A node by height above the leaves and position within its level; its parent is (level + 1, idx / 2). */
  datatype Node = Node(level: nat, idx: nat)

  function Parent(n: Node): Node { Node(n.level + 1, n.idx / 2) }
  predicate IsLeft(n: Node) { n.idx % 2 == 0 }
  function LeftChild(n: Node): Node
    requires n.level > 0
  { Node(n.level - 1, 2 * n.idx) }
  function RightChild(n: Node): Node
    requires n.level > 0
  { Node(n.level - 1, 2 * n.idx + 1) }

  /** The position at height `level` on the path from leaf t to the root. */
  function Anc(t: nat, level: nat): nat {
    if level == 0 then t else Anc(t, level - 1) / 2
  }

  /** The node at height `level` above leaf t. */
  function On(t: nat, level: nat): Node { Node(level, Anc(t, level)) }

  lemma {:induction false} AncMonotone(s: nat, t: nat, level: nat)
    requires s <= t
    ensures Anc(s, level) <= Anc(t, level)
  {
    if level > 0 { AncMonotone(s, t, level - 1); }
  }

  lemma {:induction false} AncBound(t: nat, level: nat, height: nat)
    requires level <= height && t < Pow2(height)
    ensures Anc(t, level) < Pow2(height - level)
  {
    if level > 0 { AncBound(t, level - 1, height); }
  }

  /** Section i of a full-size buffer. */
  function Section(conf: Conf, data: Bytes, i: nat): Bytes {
    if i * conf.SecSize() + conf.SecSize() <= |data|
    then data[i * conf.SecSize()..i * conf.SecSize() + conf.SecSize()]
    else []
  }

  /** The value node n must send upwards: the hash of its whole subtree. */
  function Value(conf: Conf, data: Bytes, n: Node): Bytes
    decreases n.level
  {
    if n.level == 0 then conf.base(Section(conf, data, n.idx))
    else conf.base(Value(conf, data, LeftChild(n)) + Value(conf, data, RightChild(n)))
  }

  lemma Halves(sec: nat, q: nat, idx: nat)
    ensures sec * (2 * q) == sec * q + sec * q
    ensures idx * (sec * (2 * q)) == (2 * idx) * (sec * q)
    ensures (2 * idx + 1) * (sec * q) == (2 * idx) * (sec * q) + sec * q
  {
    var h := sec * q;
    assert idx * (h + h) == (2 * idx) * h;
    assert (2 * idx + 1) * h == (2 * idx) * h + h;
  }

  /** Node values agree with the reference hash of the bytes the node covers: `span` bytes from `lo`. */
  lemma {:induction false} ValueIsRefHash(conf: Conf, data: Bytes, n: Node, lo: nat, span: nat)
    requires span == conf.SecSize() * Pow2(n.level) && lo == n.idx * span && lo + span <= |data|
    ensures Value(conf, data, n) == RefHash(conf.base, conf.SecSize(), n.level, data[lo..lo + span])
    decreases n.level
  {
    hide Value, RefHash, Pow2, Section;
    Unfolded(conf, data, n, lo, span);
    if n.level > 0 {
      var q := Pow2(n.level - 1);
      var half := conf.SecSize() * q;
      Halves(conf.SecSize(), q, n.idx);
      ValueIsRefHash(conf, data, LeftChild(n), lo, half);
      ValueIsRefHash(conf, data, RightChild(n), lo + half, half);
      RefHashSplit(conf, data, n.level, lo, half);
    }
  }

  /** One level of the definitions that ValueIsRefHash relates. */
  lemma Unfolded(conf: Conf, data: Bytes, n: Node, lo: nat, span: nat)
    requires span == conf.SecSize() * Pow2(n.level) && lo == n.idx * span && lo + span <= |data|
    ensures n.level > 0 ==> Pow2(n.level) == 2 * Pow2(n.level - 1)
    ensures n.level > 0 ==>
              Value(conf, data, n) == conf.base(Value(conf, data, LeftChild(n)) + Value(conf, data, RightChild(n)))
    ensures n.level == 0 ==> Value(conf, data, n) == RefHash(conf.base, conf.SecSize(), 0, data[lo..lo + span])
  {
    if n.level > 0 { hide RefHash, Section; }
  }

  lemma RefHashSplit(conf: Conf, data: Bytes, k: nat, lo: nat, half: nat)
    requires k > 0 && half == conf.SecSize() * Pow2(k - 1) && half + half == conf.SecSize() * Pow2(k)
    requires lo + half + half <= |data|
    ensures RefHash(conf.base, conf.SecSize(), k, data[lo..lo + (half + half)]) ==
            conf.base(RefHash(conf.base, conf.SecSize(), k - 1, data[lo..lo + half]) +
                      RefHash(conf.base, conf.SecSize(), k - 1, data[lo + half..lo + half + half]))
  {
    var d := data[lo..lo + (half + half)];
    assert d[..half] == data[lo..lo + half];
    assert d[half..] == data[lo + half..lo + half + half];
  }

  /** The root value is the reference hash of the whole padded buffer. */
  lemma RootIsRefHash(conf: Conf, data: Bytes)
    requires conf.Valid() && |data| == conf.MaxSize()
    ensures |data| == conf.SecSize() * Pow2(conf.depth - 1)
    ensures Value(conf, data, Node(conf.depth - 1, 0)) == RefHash(conf.base, conf.SecSize(), conf.depth - 1, data)
  {
    ValueIsRefHash(conf, data, Node(conf.depth - 1, 0), 0, |data|);
    assert data[0..0 + |data|] == data;
  }

  /** Right of section p, where all sections are zero, every node value is the table entry for its height. */
  lemma {:induction false} ZeroValue(conf: Conf, data: Bytes, p: nat, n: Node)
    requires conf.Valid() && n.level < conf.depth && n.idx < Pow2(conf.depth - 1 - n.level)
    requires forall k: nat :: p < k < conf.Sections() ==> Section(conf, data, k) == Zeros(conf.SecSize())
    requires n.idx > Anc(p, n.level)
    ensures Value(conf, data, n) == conf.zerohashes[n.level + 1]
    decreases n.level
  {
    if n.level == 0 {
      assert Zeros(conf.SecSize()) == conf.zerohashes[0] + conf.zerohashes[0];
    } else {
      ZeroValue(conf, data, p, LeftChild(n));
      ZeroValue(conf, data, p, RightChild(n));
    }
  }
}
