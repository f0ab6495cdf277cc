/** pkg/bitvector: bits packed eight to a byte, least significant bit first. */
module BitVector {
  import opened Common

  function Mask(k: nat): bv8
    requires k < 8
  {
    1 << k
  }

  /** Bit i of a byte string. */
  predicate Bit(b: Bytes, i: nat)
    requires i / 8 < |b|
  {
    b[i / 8] & Mask(i % 8) != 0
  }

  class BitVector {
    const len: int
    const b: array<bv8>

    ghost predicate Valid() { 0 < len <= 8 * b.Length }

    constructor (b: array<bv8>, l: int)
      ensures this.len == l && this.b == b
    {
      this.len := l;
      this.b := b;
    }

    static method NewFromBytes(b: array<bv8>, l: int) returns (bv: BitVector?)
      ensures bv == null <==> l <= 0 || b.Length * 8 < l
      ensures bv != null ==> fresh(bv) && bv.len == l && bv.b == b && bv.Valid()
    {
      if l <= 0 { return null; }
      if b.Length * 8 < l { return null; }
      bv := new BitVector(b, l);
    }

    /** A vector of l zero bits; a negative number of bytes cannot be made. */
    static method New(l: int) returns (bv: BitVector?)
      requires -16 < l
      ensures bv == null <==> l <= 0
      ensures bv != null ==> fresh(bv) && fresh(bv.b) && bv.len == l && bv.Valid() && bv.b.Length == l / 8 + 1
      ensures bv != null ==> forall i :: 0 <= i < l ==> !Bit(bv.b[..], i)
    {
      var b := new bv8[if l <= -8 then 0 else if l < 0 then 1 else l / 8 + 1](_ => 0);
      bv := NewFromBytes(b, l);
    }

    method Get(i: nat) returns (v: bool)
      requires Valid() && i < len
      ensures v <==> Bit(b[..], i)
    {
      v := b[i / 8] & Mask(i % 8) != 0;
    }

    /** Changes bit i to v and no other bit. */
    method SetTo(i: nat, v: bool)
      requires Valid() && i < len
      modifies b
      ensures forall j :: 0 <= j < 8 * b.Length ==> (Bit(b[..], j) <==> if j == i then v else Bit(old(b[..]), j))
    {
      var cv := Get(i);
      if cv != v {
        b[i / 8] := b[i / 8] ^ Mask(i % 8);
        forall j | 0 <= j < 8 * b.Length ensures Bit(b[..], j) <==> if j == i then v else Bit(old(b[..]), j) {
          if j / 8 == i / 8 { Flip(old(b[i / 8]), i % 8, j % 8); }
        }
      }
    }

    method Set(i: nat)
      requires Valid() && i < len
      modifies b
      ensures forall j :: 0 <= j < 8 * b.Length ==> (Bit(b[..], j) <==> j == i || Bit(old(b[..]), j))
    {
      SetTo(i, true);
    }
  }

  /** Bits are counted from the least significant one of each byte. */
  lemma LeastFirst(b: Bytes, i: nat)
    requires i / 8 < |b|
    ensures Bit(b, i) <==> (b[i / 8] >> (i % 8)) & 1 == 1
  {}

  /** Flipping the bit under one mask changes what that mask sees and nothing else. */
  lemma Flip(x: bv8, k: nat, m: nat)
    requires k < 8 && m < 8
    ensures (x ^ Mask(k)) & Mask(m) != 0 <==> if k == m then x & Mask(m) == 0 else x & Mask(m) != 0
  {
    MaskValue(k);
    MaskValue(m);
    if k == m { FlipOwn(x, Mask(k)); } else { FlipOther(x, Mask(k), Mask(m)); }
  }

  lemma MaskValue(k: nat)
    requires k < 8
    ensures Mask(k) == if k == 0 then 1 else if k == 1 then 2 else if k == 2 then 4 else if k == 3 then 8
                       else if k == 4 then 16 else if k == 5 then 32 else if k == 6 then 64 else 128
  {}

  lemma FlipOwn(x: bv8, m: bv8)
    requires m == 1 || m == 2 || m == 4 || m == 8 || m == 16 || m == 32 || m == 64 || m == 128
    ensures (x ^ m) & m != 0 <==> x & m == 0
  {}

  lemma FlipOther(x: bv8, m: bv8, n: bv8)
    requires m & n == 0
    ensures (x ^ m) & n == x & n
  {}
}
