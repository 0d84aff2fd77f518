/** `memcpy`: an ascending byte-by-byte copy. Memory is one array and the two
    pointers are indices into it, so overlapping calls are described too. */
module Memcpy {

  /** The memory after copying n elements from index s to index d one at a
      time in ascending order, each copy reading the memory left by the
      previous ones. */
  function ForwardCopy<T>(m: seq<T>, d: nat, s: nat, n: nat): (r: seq<T>)
    requires d + n <= |m| && s + n <= |m|
    ensures |r| == |m|
    decreases n
  {
    if n == 0 then m else ForwardCopy(m[d := m[s]], d + 1, s + 1, n - 1)
  }

  /** The memory in which the n destination elements at d hold what the n
      source elements at s held in m, and nothing else changed. */
  function Splice<T>(m: seq<T>, d: nat, s: nat, n: nat): (r: seq<T>)
    requires d + n <= |m| && s + n <= |m|
    ensures |r| == |m|
  {
    m[..d] + m[s..s + n] + m[d + n..]
  }

  /** An ascending copy is an exact copy when no element is overwritten
      before it is read: the destination starts at or below the source, or
      the ranges are disjoint. */
  lemma {:induction false} ForwardCopyIsSplice<T>(m: seq<T>, d: nat, s: nat, n: nat)
    requires d + n <= |m| && s + n <= |m|
    requires d <= s || s + n <= d
    ensures ForwardCopy(m, d, s, n) == Splice(m, d, s, n)
    decreases n
  {
    if n > 0 {
      var m' := m[d := m[s]];
      ForwardCopyIsSplice(m', d + 1, s + 1, n - 1);
      assert m'[..d + 1] == m[..d] + [m[s]];
      assert m'[s + 1..s + n] == m[s + 1..s + n];
      assert m'[d + n..] == m[d + n..];
      assert m[s..s + n] == [m[s]] + m[s + 1..s + n];
    }
  }

  /** Splice in terms of single elements. */
  lemma SpliceAt<T>(m: seq<T>, d: nat, s: nat, n: nat)
    requires d + n <= |m| && s + n <= |m|
    ensures forall i :: 0 <= i < |m| ==>
      Splice(m, d, s, n)[i] == if d <= i < d + n then m[s + (i - d)] else m[i]
  {
    var r := Splice(m, d, s, n);
    forall i | 0 <= i < |m|
      ensures r[i] == if d <= i < d + n then m[s + (i - d)] else m[i]
    {
      if i < d {
        assert r[i] == m[..d][i];
      } else if i < d + n {
        assert r[i] == m[s..s + n][i - d];
      } else {
        assert r[i] == m[d + n..][i - d - n];
      }
    }
  }

  /** memcpy.c:3-9: copies mem[src + i] to mem[dst + i] for i = 0, 1, ...,
      n - 1 and returns dst. */
  method Memcpy<T>(mem: array<T>, dst: nat, src: nat, n: nat) returns (r: nat)
    requires dst + n <= mem.Length && src + n <= mem.Length
    modifies mem
    ensures r == dst
    ensures mem[..] == ForwardCopy(old(mem[..]), dst, src, n)
    ensures dst + n <= src || src + n <= dst ==> mem[..] == Splice(old(mem[..]), dst, src, n)
  {
    for i := 0 to n
      invariant ForwardCopy(mem[..], dst + i, src + i, n - i) == ForwardCopy(old(mem[..]), dst, src, n)
    {
      mem[dst + i] := mem[src + i];
    }
    if dst + n <= src || src + n <= dst {
      ForwardCopyIsSplice(old(mem[..]), dst, src, n);
    }
    r := dst;
  }
}
