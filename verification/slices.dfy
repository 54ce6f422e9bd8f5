/**
 * Python's slice `s[lo:hi]` on a sequence: a negative bound counts from
 * the end, and bounds are then clamped to `0..len(s)`; an empty slice
 * results when the start is not before the stop.
 */
module Slices {

  /** A slice bound resolved against a sequence of length `n`. */
  function Clamp(i: int, n: nat): (r: nat)
    ensures r <= n
  {
    if i < 0 then (if i + n < 0 then 0 else i + n)
    else if i > n then n
    else i
  }

  function Slice<T>(s: seq<T>, lo: int, hi: int): seq<T>
  {
    var a := Clamp(lo, |s|);
    var b := Clamp(hi, |s|);
    if a < b then s[a..b] else []
  }

  /** Within bounds a slice is the plain subsequence. */
  lemma SliceInRange<T>(s: seq<T>, lo: int, hi: int)
    requires 0 <= lo <= hi <= |s|
    ensures Slice(s, lo, hi) == s[lo..hi]
  {
  }

  /** Clamping never moves two bounds further apart. */
  lemma ClampSpread(i: int, k: nat, n: nat)
    ensures Clamp(i + k, n) - Clamp(i, n) <= k
  {
  }

  /** A window of width `k` holds at most `k` elements, wherever it sits. */
  lemma SliceWidth<T>(s: seq<T>, lo: int, k: nat)
    ensures |Slice(s, lo, lo + k)| <= k
  {
    ClampSpread(lo, k, |s|);
  }

  /** Adjacent slices concatenate. */
  lemma SliceAdjacent<T>(s: seq<T>, a: int, b: int, c: int)
    requires 0 <= a <= b <= c
    ensures Slice(s, a, b) + Slice(s, b, c) == Slice(s, a, c)
  {
    var x := Clamp(a, |s|);
    var y := Clamp(b, |s|);
    var z := Clamp(c, |s|);
    if x < y && y < z {
      assert s[x..y] + s[y..z] == s[x..z];
    }
  }
}
