/** `ft_memset`: fill the first len bytes of a buffer with one byte value. */
module Memset {
  import opened CTypes

  /** The conversion of the int argument to `unsigned char`: reduction
      modulo 256. */
  function ToByte(c: int): (b: u8)
    ensures b as int % 256 == c % 256
  {
    (c % 256) as u8
  }

  /** The buffer m with its first len bytes set to the byte of c. */
  function Filled(m: seq<u8>, c: int, len: nat): (r: seq<u8>)
    requires len <= |m|
    ensures |r| == |m|
  {
    seq(|m|, i requires 0 <= i < |m| => if i < len then ToByte(c) else m[i])
  }

  /** Filling is idempotent: a second identical call changes nothing. */
  lemma FilledIdempotent(m: seq<u8>, c: int, len: nat)
    requires len <= |m|
    ensures Filled(Filled(m, c, len), c, len) == Filled(m, c, len)
  {
  }

  /** memset.c:3-9: writes the byte of c at indices 0 .. len - 1 in
      ascending order and returns dst. */
  method FtMemset(dst: array<u8>, c: int, len: nat) returns (r: array<u8>)
    requires len <= dst.Length
    modifies dst
    ensures r == dst
    ensures dst[..] == Filled(old(dst[..]), c, len)
    ensures forall i :: 0 <= i < len ==> dst[i] as int == c % 256
    ensures forall i :: len <= i < dst.Length ==> dst[i] == old(dst[i])
  {
    for i := 0 to len
      invariant forall k :: 0 <= k < i ==> dst[k] == ToByte(c)
      invariant forall k :: i <= k < dst.Length ==> dst[k] == old(dst[k])
    {
      dst[i] := ToByte(c);
    }
    r := dst;
  }
}
