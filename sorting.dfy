/**
 * The newest-first ordering used by every listing of the site: `sort((a, b) => date(b) - date(a))`.
 * A date that does not parse is `NaN` in the source; ECMAScript's SortCompare reads a `NaN`
 * comparator result as 0, so such an element is "equal" to everything.
 */
module Sorting {
  import opened Wrappers

  /** The comparator result `date(b) - date(a)` is negative: `a` goes before `b`. */
  predicate Newer<T>(key: T -> Option<int>, a: T, b: T) {
    key(a).Some? && key(b).Some? && key(a).value > key(b).value
  }

  /** No element is strictly newer than one placed before it. */
  predicate NewestFirst<T>(s: seq<T>, key: T -> Option<int>) {
    forall i, j :: 0 <= i < j < |s| ==> !Newer(key, s[j], s[i])
  }

  predicate AllDated<T>(s: seq<T>, key: T -> Option<int>) {
    forall i :: 0 <= i < |s| ==> key(s[i]).Some?
  }

  /** Places `x` before the first element it is strictly newer than, after all others. */
  function Insert<T(==)>(x: T, s: seq<T>, key: T -> Option<int>): (r: seq<T>)
    ensures multiset(r) == multiset(s) + multiset{x}
  {
    if s == [] then [x]
    else if Newer(key, x, s[0]) then [x] + s
    else
      assert s == [s[0]] + s[1..];
      [s[0]] + Insert(x, s[1..], key)
  }

  /** A stable sort by the comparator: each element is inserted after the ones before it in the input. */
  function SortNewestFirst<T(==)>(s: seq<T>, key: T -> Option<int>): (r: seq<T>)
    ensures multiset(r) == multiset(s)
  {
    if s == [] then []
    else
      assert s == s[..|s| - 1] + [s[|s| - 1]];
      Insert(s[|s| - 1], SortNewestFirst(s[..|s| - 1], key), key)
  }

  lemma {:induction false} InsertNewestFirst<T>(x: T, s: seq<T>, key: T -> Option<int>)
    requires NewestFirst(s, key)
    ensures NewestFirst(Insert(x, s, key), key)
  {
    if s == [] {
    } else if Newer(key, x, s[0]) {
      var r := [x] + s;
      forall i, j | 0 <= i < j < |r| ensures !Newer(key, r[j], r[i]) {
        if i == 0 {
          // r[j] newer than x would make it newer than s[0], which comes before it in s.
          assert r[j] == s[j - 1];
          if j - 1 > 0 { assert !Newer(key, s[j - 1], s[0]); }
        }
      }
    } else {
      var t := Insert(x, s[1..], key);
      InsertNewestFirst(x, s[1..], key);
      var r := [s[0]] + t;
      forall i, j | 0 <= i < j < |r| ensures !Newer(key, r[j], r[i]) {
        if i == 0 {
          var e := r[j];
          assert e in multiset(t);
          assert e in multiset(s[1..]) || e == x;
          if e != x {
            var k :| 0 <= k < |s[1..]| && s[1..][k] == e;
            assert s[k + 1] == e;
          }
        } else {
          assert r[i] == t[i - 1] && r[j] == t[j - 1];
        }
      }
    }
  }

  /** The sort leaves no element behind one that is strictly older. */
  lemma {:induction false} SortIsNewestFirst<T>(s: seq<T>, key: T -> Option<int>)
    ensures NewestFirst(SortNewestFirst(s, key), key)
  {
    if s != [] {
      SortIsNewestFirst(s[..|s| - 1], key);
      InsertNewestFirst(s[|s| - 1], SortNewestFirst(s[..|s| - 1], key), key);
    }
  }

  /** When every date parses, the sorted dates never increase. */
  lemma SortDescendingWhenDated<T>(s: seq<T>, key: T -> Option<int>)
    requires AllDated(s, key)
    ensures var r := SortNewestFirst(s, key);
      forall i, j :: 0 <= i < j < |r| ==> key(r[i]).Some? && key(r[j]).Some? && key(r[i]).value >= key(r[j]).value
  {
    var r := SortNewestFirst(s, key);
    SortIsNewestFirst(s, key);
    forall i | 0 <= i < |r| ensures key(r[i]).Some? {
      assert r[i] in multiset(s);
      var k :| 0 <= k < |s| && s[k] == r[i];
    }
  }
}
