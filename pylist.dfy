/** Python list indexing and slicing, where negative positions count from the end. */
module PyList {
  import opened Results

  /** `s[k]`: a negative `k` counts from the end; out of range raises (None). */
  function PyIndex<T>(s: seq<T>, k: int): (r: Option<T>)
    ensures r.Some? <==> -|s| <= k < |s|
    ensures 0 <= k < |s| ==> r == Some(s[k])
    ensures -|s| <= k < 0 ==> r == Some(s[|s| + k])
  {
    if 0 <= k < |s| then Some(s[k])
    else if -|s| <= k < 0 then Some(s[|s| + k])
    else None
  }

  /** A slice bound as Python normalises it: negatives count from the end, then clamp to `[0, n]`. */
  function SliceBound(i: int, n: nat): (r: nat)
    ensures r <= n
    ensures 0 <= i <= n ==> r == i
    ensures -(n as int) <= i < 0 ==> r == n + i
    ensures i > n ==> r == n
    ensures i < -(n as int) ==> r == 0
  {
    if i < 0 then (if i + n < 0 then 0 else i + n)
    else if i > n then n
    else i
  }

  /** `s[a:b]`, which never raises: the elements from the normalised
      start up to the normalised end, none when the end is not past the
      start. */
  function PySlice<T>(s: seq<T>, a: int, b: int): (r: seq<T>)
    ensures |r| <= |s|
    ensures 0 <= a <= b <= |s| ==> r == s[a..b]
    ensures |r| == Max0(SliceBound(b, |s|) - SliceBound(a, |s|))
    ensures forall k :: 0 <= k < |r| ==> r[k] == s[SliceBound(a, |s|) + k]
  {
    var lo, hi := SliceBound(a, |s|), SliceBound(b, |s|);
    if lo < hi then s[lo..hi] else []
  }

  /** `max(x, 0)`. */
  function Max0(x: int): nat {
    if x < 0 then 0 else x
  }
}
