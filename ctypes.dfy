/** Machine types and C-string conventions shared by the libc and kernel models. */
module CTypes {

  /** Limits of the 32-bit `int` of the i386 target. */
  const INT_MAX: int := 0x7FFF_FFFF
  const INT_MIN: int := -0x8000_0000

  /** 2^32: the range of `uint32_t` and of the 32-bit `size_t`. */
  const TWO32: int := 0x1_0000_0000

  /** `unsigned char` */
  newtype u8 = x: int | 0 <= x < 0x100

  /** `uint32_t` (and the i386 `size_t`), as a bounded integer. */
  type u32 = x: int | 0 <= x < 0x1_0000_0000

  /** The character at index i of a C string held in s: past the end of the
      sequence reads yield the implied terminator. */
  function At(s: seq<char>, i: nat): char
  {
    if i < |s| then s[i] else '\0'
  }

  /** `strlen` of the C string that starts at index i of s: the distance from
      i to the first terminator. */
  function Strlen(s: seq<char>, i: nat): (n: nat)
    ensures At(s, i + n) == '\0'
    ensures n == 0 || i + n <= |s|
    ensures forall k :: i <= k < i + n ==> s[k] != '\0'
    decreases |s| - i
  {
    if At(s, i) == '\0' then 0
    else
      var m := Strlen(s, i + 1);
      assert s[i] != '\0';
      1 + m
  }

  /** The characters of the C string that starts at index i of s. */
  function CString(s: seq<char>, i: nat): (r: seq<char>)
    requires i <= |s|
    ensures |r| == Strlen(s, i)
    ensures '\0' !in r
  {
    s[i..i + Strlen(s, i)]
  }
}
