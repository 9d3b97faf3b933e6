/**
 * The JavaScript string operations the library relies on: `slice`,
 * `startsWith` and `lastIndexOf`.
 */
module JsStrings {

  /** JavaScript's normalisation of a `slice` bound: negative counts from the end, then clamped to `[0, n]`. */
  function SliceBound(k: int, n: nat): (b: nat)
    ensures b <= n
    ensures 0 <= k <= n ==> b == k
  {
    if k < 0 then (if n + k < 0 then 0 else n + k)
    else if k > n then n
    else k
  }

  /** `s.slice(k)` */
  function SliceFrom(s: string, k: int): string {
    s[SliceBound(k, |s|)..]
  }

  /** `s.slice(0, k)` */
  function SliceTo(s: string, k: int): string {
    s[..SliceBound(k, |s|)]
  }

  /** `n` occurs in `h` starting at position `q`. */
  predicate OccursAt(h: string, n: string, q: int) {
    0 <= q && q + |n| <= |h| && h[q..q + |n|] == n
  }

  /** `h.lastIndexOf(n)`: the last position where `n` occurs in `h`, or -1 if it occurs nowhere. */
  function LastIndexOf(h: string, n: string): (r: int)
    ensures r == -1 || OccursAt(h, n, r)
    ensures forall q :: r < q && OccursAt(h, n, q) ==> false
    ensures r == -1 <==> forall q :: !OccursAt(h, n, q)
  {
    LastAtOrBelow(h, n, |h| - |n|)
  }

  /** The last occurrence of `n` in `h` at a position no greater than `p`, or -1. */
  function LastAtOrBelow(h: string, n: string, p: int): (r: int)
    requires p <= |h| - |n|
    ensures r == -1 || (0 <= r <= p && OccursAt(h, n, r))
    ensures forall q :: r < q <= p ==> !OccursAt(h, n, q)
    decreases p + 1
  {
    if p < 0 then -1
    else if h[p..p + |n|] == n then p
    else LastAtOrBelow(h, n, p - 1)
  }

  /** `s.startsWith(p, i)` for a non-negative `i`: the position is clamped to the length of `s`. */
  predicate StartsWith(s: string, p: string, i: nat) {
    p <= SliceFrom(s, i)
  }
}
