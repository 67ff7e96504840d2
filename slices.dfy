/** JavaScript's `slice(0, n)` on arrays, shared by both map modules. */
module Slices {

  /** `s.slice(0, n)`: the first n entries, or all of s when it is shorter. */
  function Take<T>(s: seq<T>, n: nat): (r: seq<T>)
    ensures |r| <= n && |r| <= |s| && r == s[..|r|]
    ensures |r| == n || r == s
  {
    if |s| <= n then s else s[..n]
  }
}
