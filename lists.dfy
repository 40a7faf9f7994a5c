/**
 * The JavaScript array operations the hooks rely on, on sequences:
 * `findIndex`, `find`, `filter` and assignment to an index.
 */
module Lists {
  import opened Wrappers

  /** `s.findIndex(p)`: the first index whose element satisfies `p`, or -1. */
  function FindIndex<T>(s: seq<T>, p: T -> bool): (i: int)
    ensures -1 <= i < |s|
    ensures 0 <= i ==> p(s[i]) && forall j :: 0 <= j < i ==> !p(s[j])
    ensures i == -1 ==> forall j :: 0 <= j < |s| ==> !p(s[j])
  {
    if s == [] then -1
    else if p(s[0]) then 0
    else
      var k := FindIndex(s[1..], p);
      if k == -1 then -1 else k + 1
  }

  /** `s.find(p)`: the first element that satisfies `p`, or `undefined`. */
  function Find<T>(s: seq<T>, p: T -> bool): (r: Option<T>)
    ensures r.None? <==> forall j :: 0 <= j < |s| ==> !p(s[j])
    ensures r.Some? ==> r.value in s && p(r.value)
    ensures r.Some? ==> 0 <= FindIndex(s, p) && r.value == s[FindIndex(s, p)]
  {
    var i := FindIndex(s, p);
    if i == -1 then None else Some(s[i])
  }

  /** `s.filter(p)`: the elements of `s` that satisfy `p`, in their order. */
  function Filter<T>(s: seq<T>, p: T -> bool): (r: seq<T>)
    ensures |r| <= |s|
    ensures forall j :: 0 <= j < |r| ==> r[j] in s && p(r[j])
    ensures forall j :: 0 <= j < |s| && p(s[j]) ==> s[j] in r
  {
    if s == [] then []
    else (if p(s[0]) then [s[0]] else []) + Filter(s[1..], p)
  }

  /**
   * `a[i] = x` on a copy of the array, where `i` came from `findIndex`:
   * with `i == -1` JavaScript sets a property named "-1" and the list
   * of elements is unchanged.
   */
  function ReplaceAt<T>(s: seq<T>, i: int, x: T): (r: seq<T>)
    requires -1 <= i < |s|
    ensures |r| == |s|
    ensures 0 <= i ==> r[i] == x
    ensures forall j :: 0 <= j < |s| && j != i ==> r[j] == s[j]
  {
    if i == -1 then s else s[i := x]
  }

  /** The index `findIndex` returns is pinned down by the element it stops at. */
  lemma FindIndexIs<T>(s: seq<T>, p: T -> bool, k: int)
    requires 0 <= k < |s| && p(s[k])
    requires forall j :: 0 <= j < k ==> !p(s[j])
    ensures FindIndex(s, p) == k
  {
  }

  /** Filtering keeps a list whose every element passes. */
  lemma {:induction false} FilterKeepsAll<T>(s: seq<T>, p: T -> bool)
    requires forall j :: 0 <= j < |s| ==> p(s[j])
    ensures Filter(s, p) == s
  {
    if s != [] {
      FilterKeepsAll(s[1..], p);
    }
  }

  /** Filtering distributes over concatenation, so the survivors keep their order. */
  lemma {:induction false} FilterConcat<T>(a: seq<T>, b: seq<T>, p: T -> bool)
    ensures Filter(a + b, p) == Filter(a, p) + Filter(b, p)
  {
    if a == [] {
      assert a + b == b;
    } else {
      assert (a + b)[1..] == a[1..] + b;
      FilterConcat(a[1..], b, p);
    }
  }

  /** Filtering out exactly one position removes that element and keeps the rest in order. */
  lemma {:induction false} FilterDropsOne<T>(s: seq<T>, k: int, p: T -> bool)
    requires 0 <= k < |s| && !p(s[k])
    requires forall j :: 0 <= j < |s| && j != k ==> p(s[j])
    ensures Filter(s, p) == s[..k] + s[k + 1..]
  {
    var tail := s[1..];
    assert forall j :: 0 <= j < |tail| ==> tail[j] == s[j + 1];
    if k == 0 {
      FilterKeepsAll(tail, p);
    } else {
      FilterDropsOne(tail, k - 1, p);
      assert s[..k] == [s[0]] + tail[..k - 1];
      assert s[k + 1..] == tail[k..];
    }
  }
}
