/** `memcmp`: compare the first n bytes of two buffers as unsigned chars. */
module Memcmp {
  import opened CTypes

  /** Index of the first position below n where s1 and s2 differ, or n when
      they agree on all of them: where the scanning loop stops. */
  function FirstMismatch(s1: seq<u8>, s2: seq<u8>, n: nat): (i: nat)
    requires n <= |s1| && n <= |s2|
    ensures i <= n
    ensures forall k :: 0 <= k < i ==> s1[k] == s2[k]
    ensures i < n ==> s1[i] != s2[i]
    decreases n
  {
    if n == 0 then 0
    else
      var i := FirstMismatch(s1, s2, n - 1);
      if i < n - 1 then i else if s1[n - 1] == s2[n - 1] then n else n - 1
  }

  /** The value memcmp returns: 0 when the buffers agree, else the difference
      of the first differing bytes. */
  function Compare(s1: seq<u8>, s2: seq<u8>, n: nat): int
    requires n <= |s1| && n <= |s2|
  {
    var i := FirstMismatch(s1, s2, n);
    if i == n then 0 else s1[i] as int - s2[i] as int
  }

  /** The loop of memcmp.c:9 and the return of memcmp.c:11. The buffers are
      only read. */
  method Memcmp(s1: array<u8>, s2: array<u8>, n: nat) returns (r: int)
    requires n <= s1.Length && n <= s2.Length
    ensures r == Compare(s1[..], s2[..], n)
    ensures r == 0 <==> s1[..n] == s2[..n]
    ensures -255 <= r <= 255
  {
    var i := 0;
    while i < n && s1[i] == s2[i]
      invariant 0 <= i <= n
      invariant forall k :: 0 <= k < i ==> s1[k] == s2[k]
    {
      i := i + 1;
    }
    MismatchUnique(s1[..], s2[..], n, i);
    CompareZeroIffEqual(s1[..], s2[..], n);
    r := if i == n then 0 else s1[i] as int - s2[i] as int;
  }

  /** The stopping index is determined by the two properties the loop keeps. */
  lemma MismatchUnique(s1: seq<u8>, s2: seq<u8>, n: nat, i: nat)
    requires n <= |s1| && n <= |s2|
    requires i <= n
    requires forall k :: 0 <= k < i ==> s1[k] == s2[k]
    requires i < n ==> s1[i] != s2[i]
    ensures i == FirstMismatch(s1, s2, n)
  {
  }

  /** memcmp returns 0 exactly when the first n bytes are equal. */
  lemma CompareZeroIffEqual(s1: seq<u8>, s2: seq<u8>, n: nat)
    requires n <= |s1| && n <= |s2|
    ensures Compare(s1, s2, n) == 0 <==> s1[..n] == s2[..n]
  {
    assert forall k :: 0 <= k < n ==> s1[..n][k] == s1[k] && s2[..n][k] == s2[k];
  }

  /** A nonzero result is the unsigned difference at the first differing
      index, and it lies in [-255, 255] either way. */
  lemma CompareIsFirstDifference(s1: seq<u8>, s2: seq<u8>, n: nat)
    requires n <= |s1| && n <= |s2|
    ensures -255 <= Compare(s1, s2, n) <= 255
    ensures Compare(s1, s2, n) != 0 ==>
      exists i :: 0 <= i < n && s1[..i] == s2[..i] && s1[i] != s2[i]
                  && Compare(s1, s2, n) == s1[i] as int - s2[i] as int
  {
    var i := FirstMismatch(s1, s2, n);
    if i < n {
      assert s1[..i] == s2[..i];
    }
  }

  /** Swapping the buffers negates the result. */
  lemma CompareAntisymmetric(s1: seq<u8>, s2: seq<u8>, n: nat)
    requires n <= |s1| && n <= |s2|
    ensures Compare(s1, s2, n) == -Compare(s2, s1, n)
  {
    var i := FirstMismatch(s1, s2, n);
    MismatchUnique(s2, s1, n, i);
  }
}
