/** Python's two slicing forms used by the launcher: `s[:n]` and `s[-n:]`. */
module Slices {

  function Min(a: nat, b: nat): nat {
    if a <= b then a else b
  }

  /** `s[:n]`: the first n elements, or all of `s` when it is shorter. */
  function TakeFirst<T>(s: seq<T>, n: nat): (r: seq<T>)
    ensures |r| == Min(n, |s|)
    ensures r == s[..|r|]
  {
    if n < |s| then s[..n] else s
  }

  /** `s[-n:]`: the last n elements, or all of `s` when it is shorter.
      For n == 0 Python reads `s[-0:]` as `s[0:]`, the whole sequence. */
  function TakeLast<T>(s: seq<T>, n: nat): (r: seq<T>)
    ensures n > 0 ==> |r| == Min(n, |s|)
    ensures n == 0 ==> r == s
    ensures r == s[|s| - |r|..]
  {
    if n == 0 || n >= |s| then s else s[|s| - n..]
  }

  /** Taking the last n twice is taking them once. */
  lemma TakeLastTwice<T>(s: seq<T>, n: nat)
    ensures TakeLast(TakeLast(s, n), n) == TakeLast(s, n)
  {
  }
}
