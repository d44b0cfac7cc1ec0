/** JavaScript's array filter, and what it keeps. */
module Seqs {

  /** The elements of `xs` that satisfy `keep`, in input order. */
  function Filter<T>(xs: seq<T>, keep: T -> bool): seq<T>
    decreases |xs|
  {
    if xs == [] then [] else Filter(xs[..|xs| - 1], keep) + (if keep(xs[|xs| - 1]) then [xs[|xs| - 1]] else [])
  }

  /** `sub` is `xs` with some elements left out, the rest in their order. */
  ghost predicate Subsequence<T>(sub: seq<T>, xs: seq<T>)
    decreases |xs|
  {
    sub == [] ||
    (xs != [] &&
     ((sub[|sub| - 1] == xs[|xs| - 1] && Subsequence(sub[..|sub| - 1], xs[..|xs| - 1]))
      || Subsequence(sub, xs[..|xs| - 1])))
  }

  lemma FilterSnoc<T>(xs: seq<T>, x: T, keep: T -> bool)
    ensures Filter(xs + [x], keep) == Filter(xs, keep) + (if keep(x) then [x] else [])
  {
    assert (xs + [x])[..|xs|] == xs;
  }

  /** The filter keeps exactly the elements that satisfy the predicate, with their multiplicity. */
  lemma {:induction false} FilterMembers<T>(xs: seq<T>, keep: T -> bool)
    ensures forall x :: x in Filter(xs, keep) <==> x in xs && keep(x)
    ensures forall x :: keep(x) ==> multiset(Filter(xs, keep))[x] == multiset(xs)[x]
    decreases |xs|
  {
    if xs != [] {
      var init := xs[..|xs| - 1];
      FilterMembers(init, keep);
      assert xs == init + [xs[|xs| - 1]];
    }
  }

  /** What the filter keeps stays in input order. */
  lemma {:induction false} FilterSubsequence<T>(xs: seq<T>, keep: T -> bool)
    ensures Subsequence(Filter(xs, keep), xs)
    decreases |xs|
  {
    if xs != [] {
      var init := xs[..|xs| - 1];
      var x := xs[|xs| - 1];
      FilterSubsequence(init, keep);
      var f := Filter(init, keep);
      if keep(x) {
        assert Filter(xs, keep) == f + [x];
        assert (f + [x])[..|f|] == f;
      } else {
        assert Filter(xs, keep) == f;
        if f != [] {
          assert Subsequence(f, init);
        }
      }
    }
  }

  /** A filter whose predicate holds everywhere keeps everything. */
  lemma {:induction false} FilterAll<T>(xs: seq<T>, keep: T -> bool)
    requires forall i :: 0 <= i < |xs| ==> keep(xs[i])
    ensures Filter(xs, keep) == xs
    decreases |xs|
  {
    if xs != [] {
      FilterAll(xs[..|xs| - 1], keep);
    }
  }

  /** Filters whose predicates agree on the elements of `xs` keep the same elements. */
  lemma {:induction false} FilterCongruent<T>(xs: seq<T>, keep: T -> bool, keep': T -> bool)
    requires forall i :: 0 <= i < |xs| ==> keep(xs[i]) == keep'(xs[i])
    ensures Filter(xs, keep) == Filter(xs, keep')
    decreases |xs|
  {
    if xs != [] {
      FilterCongruent(xs[..|xs| - 1], keep, keep');
    }
  }
}
