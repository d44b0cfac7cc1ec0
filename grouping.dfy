/**
 * Grouping a sequence by a key, the way a JavaScript `Map` (or a plain
 * object with non-numeric keys) filled in one pass does it: keys in order of
 * first insertion, each group holding its elements in input order.
 */
module Grouping {
  import Seqs

  /** The distinct keys of `xs`, in order of first occurrence. */
  function Keys<T, K(==)>(xs: seq<T>, key: T -> K): seq<K>
    decreases |xs|
  {
    if xs == [] then []
    else
      var ks := Keys(xs[..|xs| - 1], key);
      var k := key(xs[|xs| - 1]);
      if k in ks then ks else ks + [k]
  }

  /** The elements of `xs` with key `k`, in input order. */
  function Group<T, K(==)>(xs: seq<T>, key: T -> K, k: K): seq<T>
    decreases |xs|
  {
    if xs == [] then []
    else Group(xs[..|xs| - 1], key, k) + (if key(xs[|xs| - 1]) == k then [xs[|xs| - 1]] else [])
  }

  /** The groups of the keys `ks`, concatenated in the order of `ks`. */
  function Flatten<T, K(==)>(xs: seq<T>, key: T -> K, ks: seq<K>): seq<T>
    decreases |ks|
  {
    if ks == [] then [] else Flatten(xs, key, ks[..|ks| - 1]) + Group(xs, key, ks[|ks| - 1])
  }

  ghost predicate Distinct<K>(ks: seq<K>)
  {
    forall i, j :: 0 <= i < j < |ks| ==> ks[i] != ks[j]
  }

  /** `n` is the index of the first element of `xs` with key `k`. */
  ghost predicate FirstAt<T, K>(xs: seq<T>, key: T -> K, k: K, n: int)
  {
    0 <= n < |xs| && key(xs[n]) == k && forall m :: 0 <= m < n ==> key(xs[m]) != k
  }

  /** The key of every element is listed. */
  lemma {:induction false} KeyListed<T, K>(xs: seq<T>, key: T -> K, i: int)
    requires 0 <= i < |xs|
    ensures key(xs[i]) in Keys(xs, key)
    decreases |xs|
  {
    if i < |xs| - 1 {
      var init := xs[..|xs| - 1];
      assert init[i] == xs[i];
      KeyListed(init, key, i);
    }
  }

  /** Every listed key is the key of some element; the witness is returned. */
  lemma {:induction false} KeyOccurs<T, K>(xs: seq<T>, key: T -> K, k: K) returns (i: int)
    requires k in Keys(xs, key)
    ensures 0 <= i < |xs| && key(xs[i]) == k
    decreases |xs|
  {
    var init := xs[..|xs| - 1];
    if k in Keys(init, key) {
      i := KeyOccurs(init, key, k);
      assert init[i] == xs[i];
    } else {
      i := |xs| - 1;
    }
  }

  /** Listed keys are distinct. */
  lemma {:induction false} KeysDistinct<T, K>(xs: seq<T>, key: T -> K)
    ensures Distinct(Keys(xs, key))
    decreases |xs|
  {
    if xs != [] {
      KeysDistinct(xs[..|xs| - 1], key);
    }
  }

  /** There is one key per distinct key of `xs`: every key seen, and nothing else, once. */
  lemma KeysExactly<T, K>(xs: seq<T>, key: T -> K)
    ensures Distinct(Keys(xs, key))
    ensures forall k :: k in Keys(xs, key) <==> exists i :: 0 <= i < |xs| && key(xs[i]) == k
  {
    KeysDistinct(xs, key);
    forall k ensures k in Keys(xs, key) <==> exists i :: 0 <= i < |xs| && key(xs[i]) == k {
      if k in Keys(xs, key) {
        var i := KeyOccurs(xs, key, k);
      }
      if exists i :: 0 <= i < |xs| && key(xs[i]) == k {
        var i :| 0 <= i < |xs| && key(xs[i]) == k;
        KeyListed(xs, key, i);
      }
    }
  }

  /** Keys come in order of their first occurrence in `xs` (insertion order). */
  lemma {:induction false} KeysInFirstOccurrenceOrder<T, K>(xs: seq<T>, key: T -> K, i: int, j: int, ni: int, nj: int)
    requires 0 <= i < j < |Keys(xs, key)|
    requires FirstAt(xs, key, Keys(xs, key)[i], ni) && FirstAt(xs, key, Keys(xs, key)[j], nj)
    ensures ni < nj
    decreases |xs|
  {
    var init := xs[..|xs| - 1];
    var ks := Keys(init, key);
    if j < |ks| {
      // both keys were already listed: their first occurrences lie in `init`
      assert Keys(xs, key)[i] == ks[i] && Keys(xs, key)[j] == ks[j];
      var a := KeyOccurs(init, key, ks[i]);
      var b := KeyOccurs(init, key, ks[j]);
      assert key(xs[a]) == ks[i] && key(xs[b]) == ks[j];
      FirstAtPrefix(xs, key, ks[i], ni);
      FirstAtPrefix(xs, key, ks[j], nj);
      KeysInFirstOccurrenceOrder(init, key, i, j, ni, nj);
    } else {
      // the j-th key came with the last element and occurs nowhere before it
      var k := key(xs[|xs| - 1]);
      assert Keys(xs, key)[j] == k && k !in ks;
      if nj < |xs| - 1 {
        assert init[nj] == xs[nj];
        KeyListed(init, key, nj);
        assert false;
      }
      assert Keys(xs, key)[i] == ks[i];
      var a := KeyOccurs(init, key, ks[i]);
      assert key(xs[a]) == ks[i];
    }
  }

  lemma FirstAtPrefix<T, K>(xs: seq<T>, key: T -> K, k: K, n: int)
    requires FirstAt(xs, key, k, n) && exists a :: 0 <= a < |xs| - 1 && key(xs[a]) == k
    ensures n < |xs| - 1 && FirstAt(xs[..|xs| - 1], key, k, n)
  {
  }

  /** The group of an unlisted key is empty. */
  lemma {:induction false} GroupOfUnlisted<T, K>(xs: seq<T>, key: T -> K, k: K)
    requires k !in Keys(xs, key)
    ensures Group(xs, key, k) == []
    decreases |xs|
  {
    if xs != [] {
      GroupOfUnlisted(xs[..|xs| - 1], key, k);
    }
  }

  /** An element is in group `k` exactly when it is in `xs` with key `k`; the group keeps every copy. */
  lemma {:induction false} GroupMembers<T, K>(xs: seq<T>, key: T -> K, k: K)
    ensures forall x :: x in Group(xs, key, k) <==> x in xs && key(x) == k
    ensures forall x :: key(x) == k ==> multiset(Group(xs, key, k))[x] == multiset(xs)[x]
    decreases |xs|
  {
    if xs != [] {
      var init := xs[..|xs| - 1];
      GroupMembers(init, key, k);
      assert xs == init + [xs[|xs| - 1]];
    }
  }

  /** A group is the array filter on its key. */
  lemma {:induction false} GroupIsFilter<T, K>(xs: seq<T>, key: T -> K, k: K)
    ensures Group(xs, key, k) == Seqs.Filter(xs, x => key(x) == k)
    decreases |xs|
  {
    if xs != [] {
      GroupIsFilter(xs[..|xs| - 1], key, k);
    }
  }

  /** A group keeps its elements in input order. */
  lemma GroupInOrder<T, K>(xs: seq<T>, key: T -> K, k: K)
    ensures Seqs.Subsequence(Group(xs, key, k), xs)
  {
    GroupIsFilter(xs, key, k);
    Seqs.FilterSubsequence(xs, x => key(x) == k);
  }

  /** Group of an extended sequence. */
  lemma GroupSnoc<T, K>(xs: seq<T>, x: T, key: T -> K, k: K)
    ensures Group(xs + [x], key, k) == Group(xs, key, k) + (if key(x) == k then [x] else [])
  {
    assert (xs + [x])[..|xs|] == xs;
  }

  /** Adding an element adds it to exactly one listed group, or to none when its key is not listed. */
  lemma {:induction false} FlattenSnoc<T, K>(xs: seq<T>, x: T, key: T -> K, ks: seq<K>)
    requires Distinct(ks)
    ensures multiset(Flatten(xs + [x], key, ks))
         == multiset(Flatten(xs, key, ks)) + (if key(x) in ks then multiset{x} else multiset{})
    decreases |ks|
  {
    if ks != [] {
      var init := ks[..|ks| - 1];
      var last := ks[|ks| - 1];
      assert Distinct(init);
      FlattenSnoc(xs, x, key, init);
      GroupSnoc(xs, x, key, last);
      assert key(x) in ks <==> key(x) in init || key(x) == last;
      assert !(key(x) in init && key(x) == last);
    }
  }

  /**
   * No loss and no duplication: the groups of all keys, concatenated, are a
   * permutation of the input.
   */
  lemma {:induction false} FlattenPermutation<T, K>(xs: seq<T>, key: T -> K)
    ensures multiset(Flatten(xs, key, Keys(xs, key))) == multiset(xs)
    decreases |xs|
  {
    if xs != [] {
      var init := xs[..|xs| - 1];
      var x := xs[|xs| - 1];
      var ks := Keys(init, key);
      assert xs == init + [x];
      FlattenPermutation(init, key);
      KeysDistinct(init, key);
      FlattenSnoc(init, x, key, ks);
      if key(x) !in ks {
        GroupOfUnlisted(init, key, key(x));
        GroupSnoc(init, x, key, key(x));
        assert Flatten(xs, key, ks + [key(x)]) == Flatten(xs, key, ks) + Group(xs, key, key(x)) by {
          assert (ks + [key(x)])[..|ks|] == ks;
        }
      }
    }
  }
}
