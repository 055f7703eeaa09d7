/** Generic sequence helpers: the `filter` pipeline every collection operation is built from. */
module Seqs {

  /** Keeps, in their original order, the elements of `s` that satisfy `f`. */
  function Filter<T(!new)>(s: seq<T>, f: T -> bool): (r: seq<T>)
    ensures |r| <= |s|
    ensures forall x :: x in r <==> x in s && f(x)
    decreases |s|
  {
    if s == [] then []
    else if f(s[0]) then [s[0]] + Filter(s[1..], f)
    else Filter(s[1..], f)
  }

  /** Filtering distributes over concatenation: the relative order of the kept elements is the original one. */
  lemma {:induction false} FilterConcat<T(!new)>(a: seq<T>, b: seq<T>, f: T -> bool)
    ensures Filter(a + b, f) == Filter(a, f) + Filter(b, f)
    decreases |a|
  {
    if a == [] {
      assert a + b == b;
    } else {
      assert (a + b)[1..] == a[1..] + b;
      FilterConcat(a[1..], b, f);
    }
  }

  /** A filter that every element passes changes nothing. */
  lemma {:induction false} FilterAll<T(!new)>(s: seq<T>, f: T -> bool)
    requires forall x :: x in s ==> f(x)
    ensures Filter(s, f) == s
    decreases |s|
  {
    if s != [] {
      FilterAll(s[1..], f);
    }
  }

  /** A filter that no element passes leaves nothing. */
  lemma {:induction false} FilterNone<T(!new)>(s: seq<T>, f: T -> bool)
    requires forall x :: x in s ==> !f(x)
    ensures Filter(s, f) == []
    decreases |s|
  {
    if s != [] {
      FilterNone(s[1..], f);
    }
  }

  /** Each element passing the filter keeps all its occurrences; every other element loses all of them. */
  lemma {:induction false} FilterCount<T(!new)>(s: seq<T>, f: T -> bool, x: T)
    ensures multiset(Filter(s, f))[x] == if f(x) then multiset(s)[x] else 0
    decreases |s|
  {
    if s != [] {
      FilterCount(s[1..], f, x);
      assert s == [s[0]] + s[1..];
      assert multiset(s) == multiset([s[0]]) + multiset(s[1..]);
    }
  }

  /** Only the values of the predicate on the elements of `s` matter. */
  lemma {:induction false} FilterExt<T(!new)>(s: seq<T>, f: T -> bool, g: T -> bool)
    requires forall x :: x in s ==> f(x) == g(x)
    ensures Filter(s, f) == Filter(s, g)
    decreases |s|
  {
    if s != [] {
      FilterExt(s[1..], f, g);
    }
  }

  /** Two filters in a row are one filter by the conjunction of their predicates. */
  lemma {:induction false} FilterFilter<T(!new)>(s: seq<T>, f: T -> bool, g: T -> bool, h: T -> bool)
    requires forall x :: h(x) == (f(x) && g(x))
    ensures Filter(Filter(s, f), g) == Filter(s, h)
    decreases |s|
  {
    if s != [] {
      FilterFilter(s[1..], f, g, h);
    }
  }

  /** A filter applied only when `active` is the filter by "inactive or passes". */
  lemma FilterWhen<T(!new)>(active: bool, s: seq<T>, f: T -> bool, g: T -> bool)
    requires forall x :: g(x) == (!active || f(x))
    ensures (if active then Filter(s, f) else s) == Filter(s, g)
  {
    if active {
      FilterExt(s, f, g);
    } else {
      FilterAll(s, g);
    }
  }

  /** A filter by `g` followed by a filter by `f` applied only when `active` is the filter by
    * "`g` and (inactive or `f`)". */
  lemma FilterThenWhen<T(!new)>(s: seq<T>, g: T -> bool, active: bool, f: T -> bool, h: T -> bool)
    requires forall x :: h(x) == (g(x) && (!active || f(x)))
    ensures (if active then Filter(Filter(s, g), f) else Filter(s, g)) == Filter(s, h)
  {
    if active {
      FilterFilter(s, g, f, h);
    } else {
      FilterExt(s, g, h);
    }
  }

  /** A filter that keeps as many elements as there were has kept them all. */
  lemma {:induction false} FilterSameLength<T(!new)>(s: seq<T>, f: T -> bool)
    requires |Filter(s, f)| == |s|
    ensures Filter(s, f) == s
    decreases |s|
  {
    if s != [] {
      if f(s[0]) {
        FilterSameLength(s[1..], f);
      } else {
        assert false;
      }
    }
  }

  /** Filtering twice by the same predicate is filtering once. */
  lemma FilterIdempotent<T(!new)>(s: seq<T>, f: T -> bool)
    ensures Filter(Filter(s, f), f) == Filter(s, f)
  {
    FilterAll(Filter(s, f), f);
  }

  /** `r` is `s` with some elements left out: the elements of `r` occur in `s` in the same
    * relative order. */
  ghost predicate IsSubsequence<T>(r: seq<T>, s: seq<T>)
    decreases |s|
  {
    if r == [] then true
    else if s == [] then false
    else if r[0] == s[0] then IsSubsequence(r[1..], s[1..])
    else IsSubsequence(r, s[1..])
  }

  /** A filter keeps its survivors in their original relative order. */
  lemma {:induction false} FilterIsSubsequence<T(!new)>(s: seq<T>, f: T -> bool)
    ensures IsSubsequence(Filter(s, f), s)
    decreases |s|
  {
    if s != [] {
      FilterIsSubsequence(s[1..], f);
      var r := Filter(s, f);
      if !f(s[0]) && r != [] {
        assert r[0] in r;
      }
    }
  }

  /** Every sequence is a subsequence of itself. */
  lemma {:induction false} SubsequenceRefl<T>(s: seq<T>)
    ensures IsSubsequence(s, s)
    decreases |s|
  {
    if s != [] {
      SubsequenceRefl(s[1..]);
    }
  }
}
