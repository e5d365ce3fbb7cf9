/** The JavaScript `Array.prototype` operations the core relies on, with their
    exact index arithmetic: negative positions count from the end, positions
    are clamped to the array, and `slice(-0)` is `slice(0)`. */
module JsArray {

  /** How `slice` resolves one position argument against a length. */
  function Position(k: int, len: nat): (r: nat)
    ensures r <= len
    ensures 0 <= k <= len ==> r == k
    ensures k < 0 && len + k >= 0 ==> r == len + k
  {
    if k < 0 then (if len + k < 0 then 0 else len + k)
    else if k > len then len
    else k
  }

  /** `s.slice(start, end)`. */
  function Slice<T>(s: seq<T>, start: int, end: int): (r: seq<T>)
    ensures |r| <= |s|
  {
    var a := Position(start, |s|);
    var b := Position(end, |s|);
    if a < b then s[a..b] else []
  }

  /** `s.slice(start)`. */
  function SliceFrom<T>(s: seq<T>, start: int): (r: seq<T>)
    ensures |r| <= |s|
  {
    s[Position(start, |s|)..]
  }

  /** `s.slice(-k)` for a positive `k` is the last `min(k, |s|)` elements. */
  lemma SliceFromNegative<T>(s: seq<T>, k: int)
    requires k > 0
    ensures |s| <= k ==> SliceFrom(s, -k) == s
    ensures |s| > k ==> SliceFrom(s, -k) == s[|s| - k..] && |SliceFrom(s, -k)| == k
  {
  }

  /** `[...s].reverse()`. */
  function Reverse<T>(s: seq<T>): (r: seq<T>)
    ensures |r| == |s|
    ensures forall i :: 0 <= i < |s| ==> r[i] == s[|s| - 1 - i]
  {
    if s == [] then [] else Reverse(s[1..]) + [s[0]]
  }

  /** `s.push(x)` followed by one `s.shift()` when the array then holds more
      than `cap` elements: the result ends with `x`, is a suffix of `s + [x]`
      that is at most one shorter, and stays within `cap` when `s` was. */
  function PushShift<T>(s: seq<T>, x: T, cap: nat): (r: seq<T>)
    requires cap > 0
    ensures |s| <= |r| <= |s| + 1 && |r| > 0
    ensures r == (s + [x])[|s| + 1 - |r|..] && r[|r| - 1] == x
    ensures |s| <= cap ==> |r| <= cap
    ensures |s| < cap ==> r == s + [x]
  {
    var pushed := s + [x];
    if |pushed| > cap then pushed[1..] else pushed
  }

  /** What `if (!passes) errors.push(e)` adds to a list of errors. */
  function Failing<E>(passes: bool, e: E): (r: seq<E>)
    ensures |r| <= 1
  {
    if passes then [] else [e]
  }

  lemma AppendAssociates<T>(a: seq<T>, b: seq<T>, c: seq<T>)
    ensures a + (b + c) == a + b + c
  {
  }
}
