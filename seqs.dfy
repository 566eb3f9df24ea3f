/**
 * `Array.prototype.filter` and the order-preserving subsequence relation that
 * every filter in the app produces.
 */
module Seqs {
  import opened Wrappers

  /** `r` is obtained from `s` by deleting elements, keeping the order of the rest. */
  predicate IsSubsequence<T(==)>(r: seq<T>, s: seq<T>)
    decreases |s|
  {
    r == [] ||
    (s != [] && (IsSubsequence(r, s[1..]) || (r[0] == s[0] && IsSubsequence(r[1..], s[1..]))))
  }

  /** Every element of a subsequence is an element of the sequence. */
  lemma {:induction false} SubsequenceMembers<T>(r: seq<T>, s: seq<T>, x: T)
    requires IsSubsequence(r, s) && x in r
    ensures x in s
    decreases |s|
  {
    if IsSubsequence(r, s[1..]) {
      SubsequenceMembers(r, s[1..], x);
    } else if x != r[0] {
      assert x in r[1..];
      SubsequenceMembers(r[1..], s[1..], x);
    }
  }

  /** `s.filter(p)`: exactly the elements satisfying `p`, in order. */
  function Filter<T(==,!new)>(s: seq<T>, p: T -> bool): (r: seq<T>)
    ensures |r| <= |s|
    ensures forall x :: x in r <==> x in s && p(x)
    ensures IsSubsequence(r, s)
  {
    if s == [] then []
    else
      var rest := Filter(s[1..], p);
      assert s == [s[0]] + s[1..];
      if p(s[0]) then
        assert ([s[0]] + rest)[1..] == rest;
        [s[0]] + rest
      else rest
  }

  /** `s.find(p)`: the first element satisfying `p`, if there is one. */
  function FindFirst<T(==,!new)>(s: seq<T>, p: T -> bool): (r: Option<T>)
    ensures r.None? <==> forall x :: x in s ==> !p(x)
    ensures r.Some? ==> exists k :: 0 <= k < |s| && s[k] == r.value && p(r.value) &&
                                    forall j :: 0 <= j < k ==> !p(s[j])
  {
    if s == [] then None
    else if p(s[0]) then Some(s[0])
    else
      var r := FindFirst(s[1..], p);
      assert s == [s[0]] + s[1..];
      if r.Some? then
        var k :| 0 <= k < |s[1..]| && s[1..][k] == r.value && p(r.value) &&
                 forall j :: 0 <= j < k ==> !p(s[1..][j]);
        FirstShift(s, p, k);
        r
      else r
  }

  lemma FirstShift<T>(s: seq<T>, p: T -> bool, k: nat)
    requires 0 < |s| && !p(s[0]) && k < |s| - 1
    requires forall j :: 0 <= j < k ==> !p(s[1..][j])
    ensures s[k + 1] == s[1..][k]
    ensures forall j :: 0 <= j < k + 1 ==> !p(s[j])
  {
    forall j | 0 <= j < k + 1 ensures !p(s[j]) {
      if j > 0 { assert s[j] == s[1..][j - 1]; }
    }
  }

  /** Filtering keeps each satisfying element exactly as often as it occurs. */
  lemma {:induction false} FilterCounts<T(!new)>(s: seq<T>, p: T -> bool, x: T)
    ensures multiset(Filter(s, p))[x] == if p(x) then multiset(s)[x] else 0
  {
    if s != [] {
      FilterCounts(s[1..], p, x);
      assert s == [s[0]] + s[1..];
    }
  }

  /** A filter whose predicate holds everywhere returns its input. */
  lemma {:induction false} FilterAll<T(!new)>(s: seq<T>, p: T -> bool)
    requires forall x :: x in s ==> p(x)
    ensures Filter(s, p) == s
  {
    if s != [] {
      FilterAll(s[1..], p);
      assert s == [s[0]] + s[1..];
    }
  }

  /** Filtering distributes over concatenation. */
  lemma {:induction false} FilterAppend<T(!new)>(a: seq<T>, b: seq<T>, p: T -> bool)
    ensures Filter(a + b, p) == Filter(a, p) + Filter(b, p)
  {
    if a == [] {
      assert a + b == b;
    } else {
      assert (a + b)[0] == a[0] && (a + b)[1..] == a[1..] + b;
      FilterAppend(a[1..], b, p);
    }
  }
}
