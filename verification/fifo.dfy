/** Bounded first-in-first-out histories: `push` followed by one `shift`
    when the capacity is exceeded. */
module Fifo {

  /** Appends `x`; when that overflows `cap`, the oldest entry is dropped. */
  function Push<T>(xs: seq<T>, x: T, cap: nat): (r: seq<T>)
    requires 0 < cap && |xs| <= cap
    ensures |r| <= cap && |r| > 0 && r[|r| - 1] == x
    ensures |xs| < cap ==> |r| == |xs| + 1
    ensures |xs| == cap ==> |r| == cap
    ensures forall i :: 0 <= i < |r| - 1 ==> r[i] == xs[i + |xs| + 1 - |r|]
  {
    var ys := xs + [x];
    if |ys| > cap then ys[1..] else ys
  }

  /** Eviction keeps order: the result is always a suffix of `xs + [x]`. */
  lemma PushIsSuffix<T>(xs: seq<T>, x: T, cap: nat)
    requires 0 < cap && |xs| <= cap
    ensures var r := Push(xs, x, cap);
            r == (xs + [x])[|xs| + 1 - |r|..]
  {
  }
}
