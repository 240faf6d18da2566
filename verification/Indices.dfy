/**
 Lists of line or hunk positions. Sorting such a list and dropping repeats is a library call in
 the program; here it is the ascending enumeration of the positions below a bound.
 */
module Indices {

  ghost predicate Ascending(s: seq<nat>) {
    forall i, j :: 0 <= i < j < |s| ==> s[i] < s[j]
  }

  ghost predicate Distinct<T>(s: seq<T>) {
    forall i, j :: 0 <= i < j < |s| ==> s[i] != s[j]
  }

  function SortDedup(s: seq<nat>, bound: nat): (r: seq<nat>)
    ensures Ascending(r) && forall i :: 0 <= i < |r| ==> r[i] < bound
    ensures forall x :: x in r <==> x in s && x < bound
  {
    if bound == 0 then []
    else SortDedup(s, bound - 1) + if bound - 1 in s then [bound - 1] else []
  }

  ghost function Elements<T(!new)>(s: seq<T>): set<T> {
    set x | x in s
  }

  lemma {:induction false} DistinctSize<T(!new)>(s: seq<T>)
    requires Distinct(s)
    ensures |Elements(s)| == |s|
  {
    if s != [] {
      var n := |s| - 1;
      DistinctSize(s[..n]);
      assert s == s[..n] + [s[n]];
      assert Elements(s) == Elements(s[..n]) + {s[n]};
      assert s[n] !in s[..n];
    }
  }

  /** Nothing is dropped when nothing repeats. */
  lemma SortKeepsLength(s: seq<nat>, bound: nat)
    requires Distinct(s) && forall x :: x in s ==> x < bound
    ensures |SortDedup(s, bound)| == |s|
  {
    var r := SortDedup(s, bound);
    assert Elements(r) == Elements(s);
    DistinctSize(s);
    DistinctSize(r);
  }

  /** The positions before `n` whose element satisfies `p`. */
  function Where<T>(s: seq<T>, p: T -> bool, n: nat): set<nat> {
    set i: nat | i < n && i < |s| && p(s[i])
  }

  function CountWhere<T>(s: seq<T>, p: T -> bool, n: nat): nat
    requires n <= |s|
  {
    if n == 0 then 0 else CountWhere(s, p, n - 1) + if p(s[n - 1]) then 1 else 0
  }

  lemma {:induction false} CountIsSizeOf<T>(s: seq<T>, p: T -> bool, n: nat)
    requires n <= |s|
    ensures CountWhere(s, p, n) == |Where(s, p, n)|
  {
    if n == 0 {
      assert Where(s, p, 0) == {};
    } else {
      CountIsSizeOf(s, p, n - 1);
      OneMore(Where(s, p, n - 1), Where(s, p, n), n - 1, p(s[n - 1]));
    }
  }

  /** A set that gains at most one element. */
  lemma OneMore<T>(was: set<T>, now: set<T>, x: T, hit: bool)
    requires x !in was && forall y :: y in now <==> y in was || (hit && y == x)
    ensures |now| == |was| + if hit then 1 else 0
  {
    assert now == was + if hit then {x} else {};
  }
}
