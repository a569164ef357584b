/**
 * Byte sequences, the two Python slicing idioms the script relies on, and
 * the absolute difference it takes of lengths and sizes.
 */
module Bytes {

  /** One octet of a file or of the firmware image. */
  type Byte = bv8

  /** Python's `s[:n]` for `n >= 0`: the first `n` elements, or all of `s` when it is shorter. */
  function Take<T>(s: seq<T>, n: nat): (r: seq<T>)
    ensures |r| == if n <= |s| then n else |s|
    ensures forall i :: 0 <= i < |r| ==> r[i] == s[i]
  {
    if n <= |s| then s[..n] else s
  }

  /** Python's `b'\x00' * n`. */
  function Zeros(n: nat): (r: seq<Byte>)
    ensures |r| == n
    ensures forall i :: 0 <= i < n ==> r[i] == 0
  {
    seq(n, _ => 0)
  }

  /** Python's `abs(a - b)` for two sizes or lengths. */
  function Distance(a: nat, b: nat): (r: nat)
    ensures a + r == b || b + r == a
  {
    if a <= b then b - a else a - b
  }
}
