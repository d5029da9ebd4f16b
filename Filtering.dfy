/**
  `Array.prototype.filter` on a sequence: the elements that satisfy a
  predicate, in their original order. Proved here: membership, element
  counts, order preservation (a subsequence), and that these together
  determine the result.
*/
module Filtering {

  function Filter<T(==,!new)>(s: seq<T>, p: T -> bool): (r: seq<T>)
    ensures |r| <= |s|
    ensures forall x :: x in r <==> x in s && p(x)
    ensures forall x :: multiset(r)[x] == if p(x) then multiset(s)[x] else 0
  {
    if s == [] then []
    else
      assert s == [s[0]] + s[1..];
      var rest := Filter(s[1..], p);
      if p(s[0]) then [s[0]] + rest else rest
  }

  /** `r` is obtained from `s` by deleting elements: every element of `r` comes from `s`, in order. */
  predicate IsSubsequence<T(==)>(r: seq<T>, s: seq<T>)
    decreases |s|
  {
    if r == [] then true
    else if s == [] then false
    else if r[0] == s[0] then IsSubsequence(r[1..], s[1..])
    else IsSubsequence(r, s[1..])
  }

  lemma {:induction false} FilterIsSubsequence<T(!new)>(s: seq<T>, p: T -> bool)
    ensures IsSubsequence(Filter(s, p), s)
    decreases |s|
  {
    if s != [] {
      FilterIsSubsequence(s[1..], p);
      if !p(s[0]) {
        SkipHead(Filter(s[1..], p), s);
      }
    }
  }

  /** Dropping the head of `s` keeps a subsequence of its tail a subsequence of `s`. */
  lemma {:induction false} SkipHead<T>(r: seq<T>, s: seq<T>)
    requires s != [] && IsSubsequence(r, s[1..])
    ensures IsSubsequence(r, s)
    decreases |s|, 0
  {
    if r != [] && r[0] == s[0] {
      var t := s[1..];
      if t != [] && r[0] != t[0] {
        assert IsSubsequence(r, t[1..]);
      }
      SubsequenceTail(r, t);
    }
  }

  /** A subsequence stays one when its head is dropped. */
  lemma {:induction false} SubsequenceTail<T>(r: seq<T>, s: seq<T>)
    requires r != [] && IsSubsequence(r, s)
    ensures IsSubsequence(r[1..], s)
    decreases |s|, 1
  {
    assert s != [];
    if r[0] == s[0] {
      SkipHead(r[1..], s);
    } else {
      SubsequenceTail(r, s[1..]);
      SkipHead(r[1..], s);
    }
  }

  /** A subsequence has no more copies of any element than the sequence it comes from. */
  lemma {:induction false} SubsequenceCounts<T>(r: seq<T>, s: seq<T>)
    requires IsSubsequence(r, s)
    ensures multiset(r) <= multiset(s)
    decreases |s|
  {
    if r != [] {
      assert s == [s[0]] + s[1..];
      if r[0] == s[0] {
        SubsequenceCounts(r[1..], s[1..]);
        assert r == [r[0]] + r[1..];
      } else {
        SubsequenceCounts(r, s[1..]);
      }
    }
  }

  lemma HeadIn<T>(s: seq<T>)
    ensures s != [] ==> s[0] in s
  {
  }

  /** A nonempty sequence holds at least one copy of its head. */
  lemma HeadCounted<T>(r: seq<T>)
    ensures r != [] ==> multiset(r)[r[0]] > 0
  {
    if r != [] {
      assert r == [r[0]] + r[1..];
    }
  }

  /** A subsequence of a nonempty `s` either uses the head of `s` or lies within its tail. */
  lemma HeadOrSkipped<T>(r: seq<T>, s: seq<T>)
    requires IsSubsequence(r, s) && s != []
    ensures (r != [] && r[0] == s[0] && IsSubsequence(r[1..], s[1..]))
      || (IsSubsequence(r, s[1..]) && multiset(r) <= multiset(s[1..]))
  {
    if r == [] || r[0] != s[0] {
      SubsequenceCounts(r, s[1..]);
    }
  }

  /**
    The filter is the only subsequence of `s` that keeps every copy of each
    element satisfying `p` and none of the others.
  */
  lemma {:induction false} FilterUnique<T(!new)>(r: seq<T>, s: seq<T>, p: T -> bool)
    requires IsSubsequence(r, s)
    requires forall x :: multiset(r)[x] == if p(x) then multiset(s)[x] else 0
    ensures r == Filter(s, p)
    decreases |s|
  {
    HeadCounted(r);
    if s != [] {
      var x, t := s[0], s[1..];
      assert s == [x] + t;
      HeadOrSkipped(r, s);
      if p(x) {
        assert multiset(s)[x] == multiset(t)[x] + 1;
        assert r == [x] + r[1..];
        forall y
          ensures multiset(r[1..])[y] == if p(y) then multiset(t)[y] else 0
        {
          assert multiset(r)[y] == multiset(r[1..])[y] + (if y == x then 1 else 0);
          assert multiset(s)[y] == multiset(t)[y] + (if y == x then 1 else 0);
        }
        FilterUnique(r[1..], t, p);
      } else {
        assert IsSubsequence(r, t);
        forall y
          ensures multiset(r)[y] == if p(y) then multiset(t)[y] else 0
        {
          assert multiset(s)[y] == multiset(t)[y] + (if y == x then 1 else 0);
        }
        FilterUnique(r, t, p);
      }
    }
  }

  /** Filters with predicates that agree on every element agree. */
  lemma {:induction false} FilterCongruent<T(!new)>(s: seq<T>, p: T -> bool, q: T -> bool)
    requires forall x :: x in s ==> p(x) == q(x)
    ensures Filter(s, p) == Filter(s, q)
    decreases |s|
  {
    if s != [] {
      assert s == [s[0]] + s[1..];
      FilterCongruent(s[1..], p, q);
    }
  }
}
