/** Bytes and the fixed-width integers written into byte buffers. */
module Bytes {

  type byte = x: int | 0 <= x < 256

  /** 256 to the power w: the number of values of a w-byte integer. */
  function Pow256(w: nat): (r: nat)
    ensures r >= 1
  {
    if w == 0 then 1 else 256 * Pow256(w - 1)
  }

  /** The w low-order two's complement bytes of x, least significant first (`to_le_bytes`). */
  function LeBytes(x: int, w: nat): (r: seq<byte>)
    ensures |r| == w
    decreases w
  {
    if w == 0 then [] else [x % 256] + LeBytes(x / 256, w - 1)
  }

  /** The unsigned value of bytes stored least significant first. */
  function LeValue(s: seq<byte>): (r: nat)
  {
    if s == [] then 0 else s[0] + 256 * LeValue(s[1..])
  }

  /** Two's complement: the signed integer of a w-byte pattern. */
  function Signed(u: nat, w: nat): (r: int)
  {
    if 2 * u >= Pow256(w) then u - Pow256(w) else u
  }

  predicate FitsSigned(x: int, w: nat)
  {
    0 - Pow256(w) <= 2 * x < Pow256(w)
  }

  lemma {:induction false} LeRoundTrip(x: int, w: nat)
    requires 0 - Pow256(w) <= x < Pow256(w)
    ensures LeValue(LeBytes(x, w)) == if x < 0 then x + Pow256(w) else x
    decreases w
  {
    if w > 0 {
      LeRoundTrip(x / 256, w - 1);
      assert LeBytes(x, w)[1..] == LeBytes(x / 256, w - 1);
    }
  }

  lemma {:induction false} SignedRoundTrip(x: int, w: nat)
    requires FitsSigned(x, w)
    ensures Signed(LeValue(LeBytes(x, w)), w) == x
  {
    LeRoundTrip(x, w);
  }
}
