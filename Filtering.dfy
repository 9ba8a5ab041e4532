/**
 * The order-preserving filter that the board applies to its client list
 * (JavaScript's `Array.prototype.filter` with a side-effect-free callback),
 * and what it keeps: exactly the matching elements, in their original order.
 */
module Filtering {

  /** The elements of `s` that satisfy `p`, in the order they have in `s`. */
  function Filter<T>(s: seq<T>, p: T -> bool): (r: seq<T>)
    ensures |r| <= |s|
    ensures forall k :: 0 <= k < |r| ==> r[k] in s && p(r[k])
    ensures forall i :: 0 <= i < |s| && p(s[i]) ==> s[i] in r
    decreases |s|
  {
    if s == [] then []
    else (if p(s[0]) then [s[0]] else []) + Filter(s[1..], p)
  }

  /** True when `idx` is a strictly increasing list of positions of `s` at or after `lo`. */
  ghost predicate Ascending(idx: seq<nat>, lo: nat, n: nat)
  {
    && (forall k :: 0 <= k < |idx| ==> lo <= idx[k] < n)
    && (forall k, l :: 0 <= k < l < |idx| ==> idx[k] < idx[l])
  }

  /** The positions `i >= lo` of `s` whose element satisfies `p`, in increasing order. */
  ghost function MatchingFrom<T>(s: seq<T>, p: T -> bool, lo: nat): seq<nat>
    requires lo <= |s|
    decreases |s| - lo
  {
    if lo == |s| then []
    else (if p(s[lo]) then [lo] else []) + MatchingFrom(s, p, lo + 1)
  }

  /** `MatchingFrom` lists, in increasing order, exactly the positions at or after `lo` that satisfy `p`. */
  lemma {:induction false} MatchingFromSound<T>(s: seq<T>, p: T -> bool, lo: nat)
    requires lo <= |s|
    ensures Ascending(MatchingFrom(s, p, lo), lo, |s|)
    ensures forall k :: 0 <= k < |MatchingFrom(s, p, lo)| ==> p(s[MatchingFrom(s, p, lo)[k]])
    ensures forall i :: lo <= i < |s| && p(s[i]) ==> i in MatchingFrom(s, p, lo)
    decreases |s| - lo
  {
    if lo < |s| {
      MatchingFromSound(s, p, lo + 1);
    }
  }

  /** Every position of `s` whose element satisfies `p`, in increasing order. */
  ghost function Matching<T>(s: seq<T>, p: T -> bool): (idx: seq<nat>)
    ensures Ascending(idx, 0, |s|)
    ensures forall k :: 0 <= k < |idx| ==> p(s[idx[k]])
    ensures forall i :: 0 <= i < |s| && p(s[i]) ==> i in idx
  {
    MatchingFromSound(s, p, 0);
    MatchingFrom(s, p, 0)
  }

  lemma {:induction false} FilterSuffixSelects<T>(s: seq<T>, p: T -> bool, lo: nat)
    requires lo <= |s|
    ensures |Filter(s[lo..], p)| == |MatchingFrom(s, p, lo)|
    ensures forall k :: 0 <= k < |MatchingFrom(s, p, lo)| ==>
              MatchingFrom(s, p, lo)[k] < |s| && Filter(s[lo..], p)[k] == s[MatchingFrom(s, p, lo)[k]]
    decreases |s| - lo
  {
    if lo < |s| {
      FilterSuffixSelects(s, p, lo + 1);
      assert s[lo..][1..] == s[lo + 1..];
      var rest := Filter(s[lo + 1..], p);
      var restIdx := MatchingFrom(s, p, lo + 1);
      if p(s[lo]) {
        assert Filter(s[lo..], p) == [s[lo]] + rest;
        assert MatchingFrom(s, p, lo) == [lo] + restIdx;
      } else {
        assert Filter(s[lo..], p) == rest;
        assert MatchingFrom(s, p, lo) == restIdx;
      }
    }
  }

  /**
   * Order preservation: the filter's result is the subsequence of `s` at the
   * positions that satisfy `p`, taken in increasing order, so two kept
   * elements appear in the result in the order they have in `s`.
   */
  lemma FilterKeepsOrder<T>(s: seq<T>, p: T -> bool)
    ensures |Filter(s, p)| == |Matching(s, p)|
    ensures forall k :: 0 <= k < |Filter(s, p)| ==> Filter(s, p)[k] == s[Matching(s, p)[k]]
  {
    FilterSuffixSelects(s, p, 0);
    assert s[0..] == s;
  }

  /** An element occurs in the result as often as in `s` when it satisfies `p`, and never otherwise. */
  lemma {:induction false} FilterMultiplicity<T>(s: seq<T>, p: T -> bool, x: T)
    ensures multiset(Filter(s, p))[x] == if p(x) then multiset(s)[x] else 0
    decreases |s|
  {
    if s != [] {
      FilterMultiplicity(s[1..], p, x);
      var head := if p(s[0]) then [s[0]] else [];
      assert Filter(s, p) == head + Filter(s[1..], p);
      assert multiset(s) == multiset([s[0]]) + multiset(s[1..]) by {
        assert s == [s[0]] + s[1..];
      }
    }
  }

  /** Two predicates that agree on every element of `s` filter it alike. */
  lemma {:induction false} FilterCongruent<T>(s: seq<T>, p: T -> bool, q: T -> bool)
    requires forall i :: 0 <= i < |s| ==> p(s[i]) == q(s[i])
    ensures Filter(s, p) == Filter(s, q)
    decreases |s|
  {
    if s != [] {
      FilterCongruent(s[1..], p, q);
    }
  }

}
