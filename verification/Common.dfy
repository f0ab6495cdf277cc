/** Small types shared by all components. */
module Common {
  type Bytes = seq<bv8>

  /** The highest proximity order. */
  const MAX_PO: nat := 31

  datatype Option<+T> = None | Some(value: T)

  /** Powers of two, used for tree sizes and bit positions. */
  function Pow2(n: nat): (r: nat)
    ensures r > 0
  {
    if n == 0 then 1 else 2 * Pow2(n - 1)
  }

  function Min(a: int, b: int): int {
    if a < b then a else b
  }

  function Max(a: int, b: int): int {
    if a < b then b else a
  }

  lemma MulMonotone(a: nat, b: nat, c: nat)
    requires a <= b
    ensures a * c <= b * c
  {}

  /** Integer division, kept apart from the proofs that only use its bounds. */
  function Quotient(a: nat, b: nat): nat
    requires b > 0
  { a / b }

  lemma QuotientBounds(a: nat, b: nat, q: nat)
    requires b > 0
    ensures q <= Quotient(a, b) <==> q * b <= a
  {
    assert a == (a / b) * b + a % b;
    if q <= a / b { assert q * b <= (a / b) * b; }
    if q > a / b { assert q * b >= (a / b + 1) * b == (a / b) * b + b; }
  }

  lemma QuotientRest(a: nat, b: nat)
    requires b > 0
    ensures a == Quotient(a, b) * b + a % b && a % b < b
  {}

  lemma QuotientOfProduct(a: nat, b: nat)
    requires b > 0
    ensures Quotient(a * b, b) == a
  {
    hide Quotient;
    QuotientBounds(a * b, b, a);
    QuotientBounds(a * b, b, a + 1);
    assert (a + 1) * b == a * b + b;
  }

  /** A run of n zero bytes. */
  function Zeros(n: nat): (z: Bytes)
    ensures |z| == n
    ensures forall i :: 0 <= i < n ==> z[i] == 0
  {
    seq(n, _ => 0)
  }

  /** All pieces of a split, joined in order. */
  function Concat(pieces: seq<Bytes>): Bytes {
    if pieces == [] then [] else Concat(pieces[..|pieces| - 1]) + pieces[|pieces| - 1]
  }
}
