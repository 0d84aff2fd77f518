/** `memmove`: an overlap-safe copy within one memory, forward when the
    destination lies below the source and backward when it lies above. */
module Memmove {
  import opened Memcpy

  /** The memory after copying n elements from index s to index d one at a
      time in descending order (the loop on the decrementing count). */
  function BackwardCopy<T>(m: seq<T>, d: nat, s: nat, n: nat): (r: seq<T>)
    requires d + n <= |m| && s + n <= |m|
    ensures |r| == |m|
    decreases n
  {
    if n == 0 then m else BackwardCopy(m[d + n - 1 := m[s + n - 1]], d, s, n - 1)
  }

  /** A descending copy is an exact copy when the destination starts at or
      above the source, or the ranges are disjoint. */
  lemma {:induction false} BackwardCopyIsSplice<T>(m: seq<T>, d: nat, s: nat, n: nat)
    requires d + n <= |m| && s + n <= |m|
    requires s <= d || d + n <= s
    ensures BackwardCopy(m, d, s, n) == Splice(m, d, s, n)
    decreases n
  {
    if n > 0 {
      var m' := m[d + n - 1 := m[s + n - 1]];
      BackwardCopyIsSplice(m', d, s, n - 1);
      assert m'[..d] == m[..d];
      assert m'[s..s + n - 1] == m[s..s + n - 1];
      assert m'[d + n - 1..] == [m[s + n - 1]] + m[d + n..];
      assert m[s..s + n] == m[s..s + n - 1] + [m[s + n - 1]];
    }
  }

  /** Copying a range onto itself changes nothing. */
  lemma SpliceSelf<T>(m: seq<T>, d: nat, n: nat)
    requires d + n <= |m|
    ensures Splice(m, d, d, n) == m
  {
    assert m == m[..d] + m[d..d + n] + m[d + n..];
  }

  /** memmove.c:3-13. The pointer it returns is an index into mem: the loop
      of the forward path post-increments dst itself, so that path returns
      dst + n; the other paths return dst. */
  method Memmove<T>(mem: array<T>, dst: nat, src: nat, n: nat) returns (r: nat)
    requires dst + n <= mem.Length && src + n <= mem.Length
    modifies mem
    ensures r == if dst < src then dst + n else dst
    ensures dst < src ==> mem[..] == ForwardCopy(old(mem[..]), dst, src, n)
    ensures dst > src ==> mem[..] == BackwardCopy(old(mem[..]), dst, src, n)
    ensures mem[..] == Splice(old(mem[..]), dst, src, n)
  {
    var d, s := dst, src;
    var k: nat := n;
    if d < s {
      while k != 0
        invariant d == dst + (n - k) && s == src + (n - k) && k <= n
        invariant ForwardCopy(mem[..], d, s, k) == ForwardCopy(old(mem[..]), dst, src, n)
      {
        k := k - 1;
        mem[d] := mem[s];
        d, s := d + 1, s + 1;
      }
      ForwardCopyIsSplice(old(mem[..]), dst, src, n);
    } else if d != s {
      while k != 0
        invariant k <= n
        invariant BackwardCopy(mem[..], dst, src, k) == BackwardCopy(old(mem[..]), dst, src, n)
      {
        k := k - 1;
        mem[dst + k] := mem[src + k];
      }
      BackwardCopyIsSplice(old(mem[..]), dst, src, n);
    } else {
      SpliceSelf(mem[..], dst, n);
    }
    r := d;
  }
}
