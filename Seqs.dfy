/**
 * `Array.prototype.filter` and the counting idiom `xs.filter(p).length`, with
 * the facts about them that the dashboard's queries rely on.
 */
module Seqs {

  /** `s.filter(p)`: the elements satisfying `p`, in their original order. */
  function Filter<T>(p: T -> bool, s: seq<T>): (r: seq<T>)
    ensures |r| <= |s|
  {
    if s == [] then []
    else (if p(s[0]) then [s[0]] else []) + Filter(p, s[1..])
  }

  /** The filter keeps the elements that satisfy `p` and only those. */
  lemma {:induction false} FilterMembers<T>(p: T -> bool, s: seq<T>)
    ensures forall i :: 0 <= i < |Filter(p, s)| ==> p(Filter(p, s)[i]) && Filter(p, s)[i] in s
    ensures forall i :: 0 <= i < |s| && p(s[i]) ==> s[i] in Filter(p, s)
  {
    if s != [] {
      FilterMembers(p, s[1..]);
      var r := Filter(p, s);
      var rest := Filter(p, s[1..]);
      if p(s[0]) {
        assert r == [s[0]] + rest;
      } else {
        assert r == rest;
      }
      forall i | 0 <= i < |s| && p(s[i])
        ensures s[i] in r
      {
        if i > 0 {
          assert s[1..][i - 1] == s[i];
        }
      }
    }
  }

  /** `s.filter(p).length`. */
  function Count<T>(p: T -> bool, s: seq<T>): (n: nat)
    ensures n <= |s|
  {
    |Filter(p, s)|
  }

  /** `r` is obtained from `s` by deleting elements, the rest keeping their order. */
  predicate IsSubsequence<T(==)>(r: seq<T>, s: seq<T>)
    decreases |s|
  {
    r == [] || (s != [] && ((r[0] == s[0] && IsSubsequence(r[1..], s[1..])) || IsSubsequence(r, s[1..])))
  }

  lemma {:induction false} FilterIsSubsequence<T>(p: T -> bool, s: seq<T>)
    ensures IsSubsequence(Filter(p, s), s)
  {
    if s != [] {
      FilterIsSubsequence(p, s[1..]);
      var r := Filter(p, s);
      if p(s[0]) {
        assert r[0] == s[0] && r[1..] == Filter(p, s[1..]);
      } else {
        assert r == Filter(p, s[1..]);
      }
    }
  }

  /** Filtering keeps every occurrence of a kept element: as a multiset the
      result is exactly the kept part of the input. */
  lemma {:induction false} FilterMultiset<T>(p: T -> bool, s: seq<T>, x: T)
    ensures multiset(Filter(p, s))[x] == if p(x) then multiset(s)[x] else 0
  {
    if s != [] {
      FilterMultiset(p, s[1..], x);
      assert s == [s[0]] + s[1..];
    }
  }

  /** Filtering a sequence that starts with `x`. */
  lemma FilterCons<T>(p: T -> bool, x: T, s: seq<T>)
    ensures Filter(p, [x] + s) == (if p(x) then [x] else []) + Filter(p, s)
  {
    assert ([x] + s)[0] == x && ([x] + s)[1..] == s;
  }

  /** Filters that agree on a tail agree after the same head. */
  lemma FilterConsCongruent<T>(p: T -> bool, x: T, s1: seq<T>, s2: seq<T>)
    requires Filter(p, s1) == Filter(p, s2)
    ensures Filter(p, [x] + s1) == Filter(p, [x] + s2)
  {
    FilterCons(p, x, s1);
    FilterCons(p, x, s2);
  }

  /** Two leading elements of which at most one passes can be swapped
      without changing the filter. */
  lemma FilterSwapHead<T>(p: T -> bool, a: T, b: T, s: seq<T>)
    requires !(p(a) && p(b))
    ensures Filter(p, [a] + ([b] + s)) == Filter(p, [b] + ([a] + s))
  {
    FilterCons(p, a, [b] + s);
    FilterCons(p, b, s);
    FilterCons(p, b, [a] + s);
    FilterCons(p, a, s);
  }

  lemma {:induction false} FilterAppend<T>(p: T -> bool, a: seq<T>, b: seq<T>)
    ensures Filter(p, a + b) == Filter(p, a) + Filter(p, b)
  {
    if a != [] {
      assert (a + b)[0] == a[0] && (a + b)[1..] == a[1..] + b;
      FilterAppend(p, a[1..], b);
      assert Filter(p, a + b) == (if p(a[0]) then [a[0]] else []) + Filter(p, a[1..] + b);
    } else {
      assert a + b == b;
    }
  }

  /** A filter that every element passes changes nothing. */
  lemma {:induction false} FilterKeepsAll<T>(p: T -> bool, s: seq<T>)
    requires forall i :: 0 <= i < |s| ==> p(s[i])
    ensures Filter(p, s) == s
  {
    if s != [] {
      FilterKeepsAll(p, s[1..]);
    }
  }

  /** Two filters whose predicates agree on the input give the same result. */
  lemma {:induction false} FilterExtensional<T>(p: T -> bool, q: T -> bool, s: seq<T>)
    requires forall i :: 0 <= i < |s| ==> p(s[i]) == q(s[i])
    ensures Filter(p, s) == Filter(q, s)
  {
    if s != [] {
      FilterExtensional(p, q, s[1..]);
    }
  }

  /** Counting two disjoint predicates separately adds up to counting their union. */
  lemma {:induction false} CountDisjointUnion<T>(p: T -> bool, q: T -> bool, u: T -> bool, s: seq<T>)
    requires forall x :: !(p(x) && q(x))
    requires forall x :: u(x) == (p(x) || q(x))
    ensures Count(u, s) == Count(p, s) + Count(q, s)
  {
    if s != [] {
      CountDisjointUnion(p, q, u, s[1..]);
    }
  }

  /** A weaker predicate counts at least as many elements. */
  lemma {:induction false} CountMonotone<T>(p: T -> bool, q: T -> bool, s: seq<T>)
    requires forall x :: p(x) ==> q(x)
    ensures Count(p, s) <= Count(q, s)
  {
    if s != [] {
      CountMonotone(p, q, s[1..]);
    }
  }
}
