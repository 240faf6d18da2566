/** Small shared vocabulary: optional values, minima, and running concatenations. */
module Common {

  datatype Option<+T> = None | Some(value: T)

  function Min(a: int, b: int): (m: int) {
    if a <= b then a else b
  }

  function Max(a: int, b: int): (m: int) {
    if a >= b then a else b
  }

  lemma PrefixGrowsBy<T>(s: seq<T>, n: nat)
    requires n < |s|
    ensures s[..n + 1] == s[..n] + [s[n]]
  {
  }

  lemma SuffixStartsWith<T>(s: seq<T>, n: nat)
    requires n < |s|
    ensures s[n..] == [s[n]] + s[n + 1..]
  {
  }

  /** `totals` are the running concatenations of `parts`. */
  ghost predicate Accumulates<T>(totals: seq<seq<T>>, parts: seq<seq<T>>) {
    && |totals| == |parts| + 1 && totals[0] == []
    && forall i :: 0 <= i < |parts| ==> totals[i + 1] == totals[i] + parts[i]
  }

  /** One more part, and the total with it. */
  lemma AccumulatesMore<T>(totals: seq<seq<T>>, parts: seq<seq<T>>, total: seq<T>, part: seq<T>)
    requires Accumulates(totals, parts) && total == totals[|parts|] + part
    ensures Accumulates(totals + [total], parts + [part])
  {
    var ts, ps := totals + [total], parts + [part];
    forall i | 0 <= i < |ps| ensures ts[i + 1] == ts[i] + ps[i] {
      if i < |parts| { assert ts[i + 1] == totals[i + 1] && ts[i] == totals[i] && ps[i] == parts[i]; }
    }
  }
}
