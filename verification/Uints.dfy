/** Unsigned integers as bytes, most significant byte first. */
module Uints {
  type Byte = x: int | 0 <= x < 256

  function Pow256(w: nat): (r: nat)
    ensures r > 0
  {
    if w == 0 then 1 else 256 * Pow256(w - 1)
  }

  function UintBytes(n: nat, w: nat): (k: seq<Byte>)
    ensures |k| == w
  {
    if w == 0 then [] else UintBytes(n / 256, w - 1) + [n % 256]
  }

  function UintValue(k: seq<Byte>): nat {
    if k == [] then 0 else 256 * UintValue(k[..|k| - 1]) + k[|k| - 1]
  }

  lemma {:induction false} UintRoundTrip(n: nat, w: nat)
    requires n < Pow256(w)
    ensures UintValue(UintBytes(n, w)) == n
  {
    if w > 0 {
      UintRoundTrip(n / 256, w - 1);
      assert UintBytes(n, w)[..w - 1] == UintBytes(n / 256, w - 1);
    }
  }
}
