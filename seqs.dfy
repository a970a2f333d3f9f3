/** The JavaScript array operations the site code relies on: `filter`, `slice` and `find`. */
module Seqs {
  import opened Wrappers

  /** `a` is `b` with some elements left out, the rest in their order. */
  predicate IsSubsequence<T(==)>(a: seq<T>, b: seq<T>)
    decreases |b|
  {
    if a == [] then true
    else if b == [] then false
    else if a[0] == b[0] then IsSubsequence(a[1..], b[1..])
    else IsSubsequence(a, b[1..])
  }

  /** `s.filter(p)`: exactly the elements that satisfy `p`, in their original order. */
  function Filter<T(==,!new)>(s: seq<T>, p: T -> bool): (r: seq<T>)
    ensures forall i :: 0 <= i < |r| ==> p(r[i])
    ensures forall x :: multiset(r)[x] == (if p(x) then multiset(s)[x] else 0)
    ensures IsSubsequence(r, s)
  {
    if s == [] then []
    else
      var t := Filter(s[1..], p);
      assert s == [s[0]] + s[1..];
      if p(s[0]) then [s[0]] + t else t
  }

  /** ECMAScript's `relative index` clamp used by `slice`: negative counts from the end. */
  function SliceIndex(k: int, n: nat): (r: nat)
    ensures r <= n
    ensures 0 <= k <= n ==> r == k
    ensures k > n ==> r == n
    ensures k < 0 ==> r == (if n + k < 0 then 0 else n + k)
  {
    if k < 0 then (if n + k < 0 then 0 else n + k) else if k > n then n else k
  }

  /** `s.slice(start, end)` for integral arguments, with JavaScript's negative-index rule. */
  function JsSlice<T>(s: seq<T>, start: int, end: int): (r: seq<T>)
    ensures var from, to := SliceIndex(start, |s|), SliceIndex(end, |s|);
      r == if from < to then s[from..to] else []
  {
    var from, to := SliceIndex(start, |s|), SliceIndex(end, |s|);
    if from < to then s[from..to] else []
  }

  /** Index of the first element at or after `from` satisfying `p` (`findIndex`). */
  function FindIndexFrom<T>(s: seq<T>, p: T -> bool, from: nat): (r: Option<nat>)
    requires from <= |s|
    ensures r.Some? ==> from <= r.value < |s| && p(s[r.value])
    ensures r.Some? ==> forall k :: from <= k < r.value ==> !p(s[k])
    ensures r.None? ==> forall k :: from <= k < |s| ==> !p(s[k])
    decreases |s| - from
  {
    if from == |s| then None
    else if p(s[from]) then Some(from)
    else FindIndexFrom(s, p, from + 1)
  }

  /** `s.find(p)`: the first element satisfying `p`, if any. */
  function Find<T>(s: seq<T>, p: T -> bool): (r: Option<T>)
    ensures r.Some? ==> p(r.value) && exists i :: 0 <= i < |s| && s[i] == r.value && forall k :: 0 <= k < i ==> !p(s[k])
    ensures r.None? ==> forall k :: 0 <= k < |s| ==> !p(s[k])
  {
    match FindIndexFrom(s, p, 0)
    case None => None
    case Some(i) => Some(s[i])
  }

  /** `xs.flatMap(x => [f(x), g(x)])`: two elements per input, in order. */
  function FlatPairs<A, T>(f: A -> T, g: A -> T, xs: seq<A>): (r: seq<T>)
    ensures |r| == 2 * |xs|
  {
    if xs == [] then [] else [f(xs[0]), g(xs[0])] + FlatPairs(f, g, xs[1..])
  }

  /** The pair of the `i`-th input sits at `2 * i` and `2 * i + 1`. */
  lemma {:induction false} FlatPairsAt<A, T>(f: A -> T, g: A -> T, xs: seq<A>, i: nat)
    requires i < |xs|
    ensures FlatPairs(f, g, xs)[2 * i] == f(xs[i])
    ensures FlatPairs(f, g, xs)[2 * i + 1] == g(xs[i])
  {
    if i > 0 {
      FlatPairsAt(f, g, xs[1..], i - 1);
      assert xs[1..][i - 1] == xs[i];
    }
  }
}
