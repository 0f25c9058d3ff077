/** Bytes, addresses and little-endian numbers. */
module Bytes {
  newtype byte = x: int | 0 <= x < 256

  /** An account address: 32 bytes, read as one little-endian number. */
  type Pubkey = k: nat | k < 0x1_0000000000000000_0000000000000000_0000000000000000_0000000000000000

  const PUBKEY_BYTES: nat := 32

  function Pow256(n: nat): (p: nat)
    ensures p > 0
  {
    if n == 0 then 1 else 256 * Pow256(n - 1)
  }

  /** The number that bytes denote, least significant first. */
  function FromLe(s: seq<byte>): (v: nat)
  {
    if s == [] then 0 else s[0] as nat + 256 * FromLe(s[1..])
  }

  /** The first `width` base-256 digits, least significant first. */
  function ToLe(v: nat, width: nat): (s: seq<byte>)
    ensures |s| == width
  {
    if width == 0 then [] else [(v % 256) as byte] + ToLe(v / 256, width - 1)
  }

  lemma {:induction false} ToLeFromLe(v: nat, width: nat)
    requires v < Pow256(width)
    ensures FromLe(ToLe(v, width)) == v
  {
    if width > 0 {
      ToLeFromLe(v / 256, width - 1);
      assert ToLe(v, width)[1..] == ToLe(v / 256, width - 1);
    }
  }

  lemma {:induction false} FromLeToLe(s: seq<byte>)
    ensures FromLe(s) < Pow256(|s|)
    ensures ToLe(FromLe(s), |s|) == s
  {
    if s != [] {
      FromLeToLe(s[1..]);
      assert FromLe(s) / 256 == FromLe(s[1..]);
    }
  }
}
