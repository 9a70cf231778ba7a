/** Sequence helpers standing for JavaScript's `Array.prototype.filter`
    and for occurrence counts, with the facts the rest of the model uses. */
module Seqs {

  /** Number of occurrences of `x` in `s`. */
  function Count<T(==)>(s: seq<T>, x: T): (n: nat)
    ensures n <= |s|
    ensures n == multiset(s)[x]
  {
    if s == [] then 0
    else
      assert s == [s[0]] + s[1..];
      (if s[0] == x then 1 else 0) + Count(s[1..], x)
  }

  /** The elements of `s` that satisfy `p`, in their original order
      (`s.filter(p)`). */
  function Filter<T>(s: seq<T>, p: T -> bool): (r: seq<T>)
    ensures |r| <= |s|
    ensures forall k :: 0 <= k < |r| ==> p(r[k])
  {
    if s == [] then []
    else if p(s[0]) then [s[0]] + Filter(s[1..], p)
    else Filter(s[1..], p)
  }

  /** An element is kept exactly when it occurs in the input and satisfies
      the predicate. */
  lemma {:induction false} FilterMember<T>(s: seq<T>, p: T -> bool, x: T)
    ensures x in Filter(s, p) <==> x in s && p(x)
  {
    if s != [] {
      FilterMember(s[1..], p, x);
      assert s == [s[0]] + s[1..];
    }
  }

  /** Filtering distributes over concatenation; together with the one-element
      case this fixes both which elements are kept and their order. */
  lemma {:induction false} FilterAppend<T>(s: seq<T>, t: seq<T>, p: T -> bool)
    ensures Filter(s + t, p) == Filter(s, p) + Filter(t, p)
  {
    if s == [] {
      assert s + t == t;
    } else {
      assert (s + t)[1..] == s[1..] + t;
      FilterAppend(s[1..], t, p);
    }
  }

  /** Filtering keeps every element when all satisfy the predicate. */
  lemma {:induction false} FilterAll<T>(s: seq<T>, p: T -> bool)
    requires forall k :: 0 <= k < |s| ==> p(s[k])
    ensures Filter(s, p) == s
  {
    if s != [] {
      FilterAll(s[1..], p);
    }
  }

  /** Filtering keeps nothing when no element satisfies the predicate. */
  lemma {:induction false} FilterNone<T>(s: seq<T>, p: T -> bool)
    requires forall k :: 0 <= k < |s| ==> !p(s[k])
    ensures Filter(s, p) == []
  {
    if s != [] {
      FilterNone(s[1..], p);
    }
  }

  /** Each element keeps all its occurrences when it satisfies the predicate
      and loses them all otherwise. */
  lemma {:induction false} FilterMultiplicity<T>(s: seq<T>, p: T -> bool, x: T)
    ensures multiset(Filter(s, p))[x] == if p(x) then multiset(s)[x] else 0
  {
    if s != [] {
      FilterMultiplicity(s[1..], p, x);
      assert s == [s[0]] + s[1..];
      assert multiset(s) == multiset{s[0]} + multiset(s[1..]);
    }
  }

  /** Filtering two permutations of one sequence gives two permutations of
      one result. */
  lemma FilterPermutation<T>(s: seq<T>, t: seq<T>, p: T -> bool)
    requires multiset(s) == multiset(t)
    ensures multiset(Filter(s, p)) == multiset(Filter(t, p))
  {
    var a, b := multiset(Filter(s, p)), multiset(Filter(t, p));
    forall x
      ensures a[x] == b[x]
    {
      FilterMultiplicity(s, p, x);
      FilterMultiplicity(t, p, x);
    }
    MultisetExtensional(a, b);
  }

  /** `r` is `s` with some elements left out and the rest in their order. */
  predicate Subsequence<T(==)>(r: seq<T>, s: seq<T>)
    decreases |s|
  {
    || r == []
    || (s != [] && ((r[0] == s[0] && Subsequence(r[1..], s[1..])) || Subsequence(r, s[1..])))
  }

  /** Filtering keeps the relative order of the kept elements. */
  lemma {:induction false} FilterSubsequence<T>(s: seq<T>, p: T -> bool)
    ensures Subsequence(Filter(s, p), s)
  {
    if s != [] {
      FilterSubsequence(s[1..], p);
      if p(s[0]) {
        assert ([s[0]] + Filter(s[1..], p))[1..] == Filter(s[1..], p);
      }
    }
  }

  /** A subsequence is never more numerous than the sequence it comes from. */
  lemma {:induction false} SubsequenceMultiset<T>(r: seq<T>, s: seq<T>)
    requires Subsequence(r, s)
    ensures multiset(r) <= multiset(s)
  {
    if r != [] {
      assert s == [s[0]] + s[1..];
      if r[0] == s[0] && Subsequence(r[1..], s[1..]) {
        SubsequenceMultiset(r[1..], s[1..]);
        assert r == [r[0]] + r[1..];
      } else {
        SubsequenceMultiset(r, s[1..]);
      }
    }
  }

  /** The contract of a filter pins its result: a subsequence of `s` that
      keeps every occurrence of the elements satisfying `p` and no other
      element is `Filter(s, p)`. */
  lemma {:induction false} FilterUnique<T>(r: seq<T>, s: seq<T>, p: T -> bool)
    requires Subsequence(r, s)
    requires forall x :: multiset(r)[x] == if p(x) then multiset(s)[x] else 0
    ensures r == Filter(s, p)
  {
    if s == [] {
      assert multiset(r) == multiset{} by {
        MultisetExtensional(multiset(r), multiset{});
      }
    } else {
      var h, t := s[0], s[1..];
      assert s == [h] + t;
      if r == [] {
        forall x ensures multiset(r)[x] == if p(x) then multiset(t)[x] else 0 {
        }
        FilterUnique(r, t, p);
        assert !p(h) by {
          assert multiset(s)[h] > 0;
        }
      } else if r[0] == h && Subsequence(r[1..], t) {
        assert r == [h] + r[1..];
        assert p(h) by {
          assert multiset(r)[h] > 0;
        }
        forall x ensures multiset(r[1..])[x] == if p(x) then multiset(t)[x] else 0 {
        }
        FilterUnique(r[1..], t, p);
      } else {
        assert Subsequence(r, t);
        SubsequenceMultiset(r, t);
        assert multiset(r)[h] < multiset(s)[h];
        forall x ensures multiset(r)[x] == if p(x) then multiset(t)[x] else 0 {
          if p(x) {
            assert x != h;
          }
        }
        FilterUnique(r, t, p);
      }
    }
  }

  /** Two multisets that agree on every multiplicity are equal. */
  lemma MultisetExtensional<T>(a: multiset<T>, b: multiset<T>)
    requires forall x :: a[x] == b[x]
    ensures a == b
  {
  }
}
