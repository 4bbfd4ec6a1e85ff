/** Bytes, little-endian integers and the bitwise "or" of burning fuses. */
module Bytes {
  type Byte = b: int | 0 <= b < 256

  function Zeros(n: nat): (z: seq<Byte>)
    ensures |z| == n && forall i :: 0 <= i < n ==> z[i] == 0
  {
    seq(n, i => 0)
  }

  /** `int.from_bytes(bs, "little")`. */
  function FromLE(bs: seq<Byte>): nat {
    if bs == [] then 0 else bs[0] + 256 * FromLE(bs[1..])
  }

  /** `v.to_bytes(n, "little")` for a value that fits. */
  function ToLE(v: nat, n: nat): (bs: seq<Byte>)
    ensures |bs| == n
  {
    if n == 0 then [] else [v % 256] + ToLE(v / 256, n - 1)
  }

  function Limit(n: nat): nat {
    if n == 0 then 1 else 256 * Limit(n - 1)
  }

  lemma {:induction false} FromToLE(v: nat, n: nat)
    requires v < Limit(n)
    ensures FromLE(ToLE(v, n)) == v
    decreases n
  {
    if n > 0 {
      FromToLE(v / 256, n - 1);
      assert ToLE(v, n)[1..] == ToLE(v / 256, n - 1);
    }
  }

  /** A fuse bit that is set stays set. */
  function OrByte(a: Byte, b: Byte): Byte {
    ((a as bv8) | (b as bv8)) as int
  }

  lemma OrBlank(b: Byte)
    ensures OrByte(0, b) == b
  {
  }

  function Or(a: seq<Byte>, b: seq<Byte>): (r: seq<Byte>)
    requires |a| == |b|
    ensures |r| == |a|
  {
    seq(|a|, i requires 0 <= i < |a| => OrByte(a[i], b[i]))
  }

  lemma BurnBlank(b: seq<Byte>)
    ensures Or(Zeros(|b|), b) == b
  {
    forall i | 0 <= i < |b| ensures Or(Zeros(|b|), b)[i] == b[i] {
      OrBlank(b[i]);
    }
  }
}
